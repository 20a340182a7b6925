/**
 * The pending-comments table: rows keyed by their unique `code`, with
 * insert (a conflict on a duplicate code), lookup, delete and the
 * "expires_at <= now" query. The SQLite table becomes a map from code to
 * row held by a store object whose methods change it in place; the clock
 * reading of the expiry query is a parameter.
 */
module PendingComments {
  import opened Wrappers
  import opened Models

  /** An `HTTPException(status_code, detail)` raised to the caller. */
  datatype HttpError = HttpError(status: int, detail: string)

  /** The `{"status": ..., "code": ...}` acknowledgement of a write. */
  datatype Ack = Ack(status: string, code: string)

  const CodeExists := HttpError(409, "Code already exists")
  const CodeNotFound := HttpError(404, "Code not found")

  /** How a write can fail: a deliberate HTTP error, or an exception nothing catches. */
  datatype Failure = Rejected(http: HttpError) | Uncaught(raised: Raised)

  /** What binding an integer outside SQLite's range raises. */
  const IntTooLarge := Raised("OverflowError", "Python int too large to convert to SQLite INTEGER")

  /** A value SQLite can store as INTEGER: signed 64 bits. */
  predicate FitsInteger(x: int) {
    -0x8000_0000_0000_0000 <= x < 0x8000_0000_0000_0000
  }

  /** Every integer column of the row can be bound as a statement parameter. */
  predicate Bindable(data: PendingComment) {
    FitsInteger(data.commentId) && FitsInteger(data.prNumber)
    && FitsInteger(data.installationId) && FitsInteger(data.expiresAt)
  }

  /** The table: each stored row under its code. */
  type Table = map<string, PendingComment>

  /** The primary key: every row is filed under its own code. */
  ghost predicate Keyed(t: Table) {
    forall c :: c in t ==> t[c].code == c
  }

  /** Every stored row went through a successful bind. */
  ghost predicate Storable(t: Table) {
    forall c :: c in t ==> Bindable(t[c])
  }

  /**
   * The INSERT of `create_pending_comment`: a new code adds exactly that
   * row and nothing else; an existing code is a conflict. Binding an
   * integer outside 64 bits raises before the statement runs, and the
   * handler, which catches only the integrity error, lets it through.
   */
  function Insert(t: Table, data: PendingComment): (r: Result<Table, Failure>)
    ensures r.Err? <==> !Bindable(data) || data.code in t
    ensures !Bindable(data) ==> r == Err(Uncaught(IntTooLarge))
    ensures Bindable(data) && data.code in t ==> r == Err(Rejected(CodeExists))
    ensures r.Ok? ==> r.value.Keys == t.Keys + {data.code} && r.value[data.code] == data
    ensures r.Ok? ==> forall c :: c in t ==> r.value[c] == t[c]
  {
    if !Bindable(data) then Err(Uncaught(IntTooLarge))
    else if data.code in t then Err(Rejected(CodeExists))
    else Ok(t[data.code := data])
  }

  /** The SELECT of `get_pending_comment`. */
  function Lookup(t: Table, code: string): (r: Result<PendingComment, HttpError>)
    ensures r.Ok? <==> code in t
    ensures r.Err? ==> r.error == CodeNotFound
    ensures r.Ok? ==> r.value == t[code]
  {
    if code in t then Ok(t[code]) else Err(CodeNotFound)
  }

  /**
   * The DELETE of `delete_pending_comment`: only the row with that code
   * goes; no such row is a 404.
   */
  function Remove(t: Table, code: string): (r: Result<Table, HttpError>)
    ensures r.Err? <==> code !in t
    ensures r.Err? ==> r.error == CodeNotFound
    ensures r.Ok? ==> r.value.Keys == t.Keys - {code}
    ensures r.Ok? ==> forall c :: c in r.value ==> r.value[c] == t[c]
  {
    if code in t then Ok(t - {code}) else Err(CodeNotFound)
  }

  /** The rows filed under one of `keys` whose expiry is at or before `now`. */
  function ExpiredAmong(t: Table, keys: set<string>, now: int): set<PendingComment> {
    set c | c in keys && c in t && t[c].expiresAt <= now :: t[c]
  }

  /** `SELECT * FROM pending_comments WHERE expires_at <= now`, as a set of rows. */
  function Expired(t: Table, now: int): (r: set<PendingComment>)
    ensures forall c | c in t && t[c].expiresAt <= now :: t[c] in r
    ensures forall x | x in r :: x in t.Values && x.expiresAt <= now
  {
    ExpiredAmong(t, t.Keys, now)
  }

  /** The elements of a sequence. */
  function Elems<T>(s: seq<T>): set<T> {
    set x | x in s
  }

  /** No row appears twice. */
  predicate Distinct<T(==)>(s: seq<T>) {
    forall i, j :: 0 <= i < j < |s| ==> s[i] != s[j]
  }

  /** A row is expired exactly when it is stored and its expiry is not after `now`. */
  lemma ExpiredIff(t: Table, now: int, x: PendingComment)
    ensures x in Expired(t, now) <==> x in t.Values && x.expiresAt <= now
  {
    if x in t.Values && x.expiresAt <= now {
      var c :| c in t && t[c] == x;
      assert x in ExpiredAmong(t, t.Keys, now);
    }
  }

  /** Looking one more key up adds that key's row when it has expired. */
  lemma {:induction false} ExpiredAmongAdd(t: Table, keys: set<string>, k: string, now: int)
    requires k in t
    ensures ExpiredAmong(t, keys + {k}, now)
            == ExpiredAmong(t, keys, now) + (if t[k].expiresAt <= now then {t[k]} else {})
  {
    var lhs := ExpiredAmong(t, keys + {k}, now);
    var rhs := ExpiredAmong(t, keys, now) + (if t[k].expiresAt <= now then {t[k]} else {});
    forall x | x in lhs ensures x in rhs {
      var c :| c in keys + {k} && c in t && t[c].expiresAt <= now && t[c] == x;
      if c != k {
        assert x in ExpiredAmong(t, keys, now);
      }
    }
    forall x | x in rhs ensures x in lhs {
      if x in ExpiredAmong(t, keys, now) {
        var c :| c in keys && c in t && t[c].expiresAt <= now && t[c] == x;
        assert c in keys + {k};
      } else {
        assert x == t[k] && k in keys + {k};
      }
    }
  }

  /**
   * The list comprehension over the selected rows: visits every key once
   * and keeps the expired rows, each once.
   */
  method CollectExpired(t: Table, now: int) returns (expired: seq<PendingComment>)
    requires Keyed(t)
    ensures Elems(expired) == Expired(t, now)
    ensures Distinct(expired)
  {
    expired := [];
    var remaining := t.Keys;
    while remaining != {}
      invariant remaining <= t.Keys
      invariant Elems(expired) == ExpiredAmong(t, t.Keys - remaining, now)
      invariant forall i :: 0 <= i < |expired| ==> expired[i].code in t.Keys - remaining
      invariant Distinct(expired)
      decreases remaining
    {
      var k :| k in remaining;
      ghost var done := t.Keys - remaining;
      ExpiredAmongAdd(t, done, k, now);
      assert t.Keys - (remaining - {k}) == done + {k};
      if t[k].expiresAt <= now {
        assert forall i :: 0 <= i < |expired| ==> expired[i] != t[k];
        assert Elems(expired + [t[k]]) == Elems(expired) + {t[k]};
        expired := expired + [t[k]];
      }
      remaining := remaining - {k};
    }
    assert t.Keys - remaining == t.Keys;
  }

  /** The table as a store object, changed in place by create and delete. */
  class PendingCommentStore {
    var rows: Table

    ghost predicate Valid()
      reads this
    {
      Keyed(rows) && Storable(rows)
    }

    /** `init_db` on a fresh database file: an empty table. */
    constructor()
      ensures Valid() && rows == map[]
    {
      rows := map[];
    }

    /** `create_pending_comment`. */
    method Create(data: PendingComment) returns (r: Result<Ack, Failure>)
      requires Valid()
      modifies this
      ensures Valid()
      ensures Insert(old(rows), data).Ok? ==> rows == Insert(old(rows), data).value && r == Ok(Ack("created", data.code))
      ensures Insert(old(rows), data).Err? ==> rows == old(rows) && r == Err(Insert(old(rows), data).error)
    {
      if !Bindable(data) {
        return Err(Uncaught(IntTooLarge));
      }
      if data.code in rows {
        return Err(Rejected(CodeExists));
      }
      rows := rows[data.code := data];
      return Ok(Ack("created", data.code));
    }

    /** `get_pending_comment`. */
    method Get(code: string) returns (r: Result<PendingComment, HttpError>)
      ensures r == Lookup(rows, code)
    {
      if code !in rows {
        return Err(CodeNotFound);
      }
      return Ok(rows[code]);
    }

    /** `delete_pending_comment`: the row count tells whether anything was removed. */
    method Delete(code: string) returns (r: Result<Ack, HttpError>)
      requires Valid()
      modifies this
      ensures Valid()
      ensures Remove(old(rows), code).Ok? ==> rows == Remove(old(rows), code).value && r == Ok(Ack("deleted", code))
      ensures Remove(old(rows), code).Err? ==> rows == old(rows) && r == Err(Remove(old(rows), code).error)
    {
      var rowcount := if code in rows then 1 else 0;
      rows := rows - {code};
      if rowcount == 0 {
        return Err(CodeNotFound);
      }
      return Ok(Ack("deleted", code));
    }

    /** `get_expired_comments`, with the clock reading passed in; the table is left as it is. */
    method GetExpired(now: int) returns (expired: seq<PendingComment>)
      requires Valid()
      ensures Elems(expired) == Expired(rows, now)
      ensures Distinct(expired)
    {
      expired := CollectExpired(rows, now);
    }
  }

  /** Every write keeps each row under its own code, and every row within 64 bits. */
  lemma WritesKeepKeyed(t: Table, data: PendingComment, code: string)
    requires Keyed(t) && Storable(t)
    ensures Insert(t, data).Ok? ==> Keyed(Insert(t, data).value) && Storable(Insert(t, data).value)
    ensures Remove(t, code).Ok? ==> Keyed(Remove(t, code).value) && Storable(Remove(t, code).value)
  {
  }

  /** A lookup after a successful create returns the row as it was given. */
  lemma GetAfterCreate(t: Table, data: PendingComment)
    requires Insert(t, data).Ok?
    ensures Lookup(Insert(t, data).value, data.code) == Ok(data)
  {
  }

  /** A second create with the same code fails, as a conflict when it binds, and keeps the first row. */
  lemma CreateTwiceConflicts(t: Table, first: PendingComment, second: PendingComment)
    requires Insert(t, first).Ok? && second.code == first.code
    ensures Insert(Insert(t, first).value, second).Err?
    ensures Bindable(second) ==> Insert(Insert(t, first).value, second) == Err(Rejected(CodeExists))
    ensures Lookup(Insert(t, first).value, first.code) == Ok(first)
  {
  }

  /** Deleting the row just created restores the table. */
  lemma DeleteUndoesCreate(t: Table, data: PendingComment)
    requires Insert(t, data).Ok?
    ensures Remove(Insert(t, data).value, data.code) == Ok(t)
  {
    assert Insert(t, data).value - {data.code} == t;
  }

  /** After a delete the code is gone, and a second delete is a 404. */
  lemma DeleteThenGet(t: Table, code: string)
    requires code in t
    ensures Lookup(Remove(t, code).value, code) == Err(CodeNotFound)
    ensures Remove(Remove(t, code).value, code) == Err(CodeNotFound)
  {
  }

  /** Writes to one code leave every other code's lookup as it was. */
  lemma WritesLeaveOtherCodes(t: Table, data: PendingComment, code: string, other: string)
    requires other != data.code && other != code
    ensures Insert(t, data).Ok? ==> Lookup(Insert(t, data).value, other) == Lookup(t, other)
    ensures Remove(t, code).Ok? ==> Lookup(Remove(t, code).value, other) == Lookup(t, other)
  {
  }

  /** A create adds its row to the expired set exactly when its expiry has passed. */
  lemma ExpiredAfterCreate(t: Table, data: PendingComment, now: int)
    requires Insert(t, data).Ok?
    ensures Expired(Insert(t, data).value, now)
            == Expired(t, now) + (if data.expiresAt <= now then {data} else {})
  {
    var u := Insert(t, data).value;
    ExpiredAmongAdd(u, t.Keys, data.code, now);
    assert u.Keys == t.Keys + {data.code};
    assert ExpiredAmong(u, t.Keys, now) == ExpiredAmong(t, t.Keys, now) by {
      forall c | c in t.Keys ensures u[c] == t[c] { }
    }
  }

  /** A delete takes exactly its row out of the expired set. */
  lemma {:induction false} ExpiredAfterDelete(t: Table, code: string, now: int)
    requires Keyed(t) && code in t
    ensures Expired(Remove(t, code).value, now) == Expired(t, now) - {t[code]}
  {
    var u := Remove(t, code).value;
    forall x | x in Expired(u, now) ensures x in Expired(t, now) - {t[code]} {
      var c :| c in u && u[c].expiresAt <= now && u[c] == x;
      assert c in t && t[c] == x;
      assert x.code == c != code;
    }
    forall x | x in Expired(t, now) - {t[code]} ensures x in Expired(u, now) {
      var c :| c in t && t[c].expiresAt <= now && t[c] == x;
      assert c != code && c in u;
    }
  }

  /** The expired set only grows as the clock advances. */
  lemma ExpiredGrowsWithTime(t: Table, earlier: int, later: int)
    requires earlier <= later
    ensures Expired(t, earlier) <= Expired(t, later)
  {
  }

  /** A row expiring exactly at `now` is already expired; one a second later is not. */
  lemma ExpiryBoundaryIsInclusive(t: Table, data: PendingComment)
    requires data.code in t && t[data.code] == data
    ensures data in Expired(t, data.expiresAt)
    ensures data !in Expired(t, data.expiresAt - 1)
  {
    ExpiredIff(t, data.expiresAt, data);
    ExpiredIff(t, data.expiresAt - 1, data);
  }
}
