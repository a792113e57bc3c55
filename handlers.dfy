/**
 * The HTTP handlers reduced to their decisions: which repository operation
 * runs, what it does to the table, and which status code answers. Decoding
 * a JSON body is an input here (its outcome), and a response body is the
 * value that would be encoded.
 */
module Handlers {
  import opened Common
  import opened Models
  import opened Helpers
  import opened Database

  const StatusOK: int := 200
  const StatusNoContent: int := 204
  const StatusBadRequest: int := 400
  const StatusNotFound: int := 404
  const StatusInternalServerError: int := 500

  /** What the client sees: a status line, or a dropped connection after a handler panic. */
  datatype Reply = Sent(code: int) | Aborted

  /**
   * `ReadBody`: a decode failure is returned; an all-zero payload is
   * returned with a nil error, bypassing validation; otherwise the payload
   * is returned if it passes validation.
   */
  function ReadBody(decoded: Result<UserSub>): (r: Result<UserSub>)
    ensures decoded.Err? ==> r == decoded
    ensures r.Ok? <==> decoded.Ok? && (IsStructEmpty(decoded.value) || Valid(decoded.value) == [])
    ensures r.Ok? ==> r.value == decoded.value
    ensures decoded.Ok? && r.Err? ==> r.error == ValidationFailed
    ensures r == Err(DecodeFailed) <==> decoded == Err(DecodeFailed)
    ensures r.Ok? ==> r.value.monthlyPrice >= 0
  {
    match decoded
    case Err(e) => Err(e)
    case Ok(us) =>
      if IsStructEmpty(us) then Ok(ZeroUserSub)
      else if Valid(us) != [] then Err(ValidationFailed)
      else Ok(us)
  }

  /** The empty body is accepted although it fails every validation rule. */
  lemma EmptyBodyIsAccepted()
    ensures ReadBody(Ok(ZeroUserSub)) == Ok(ZeroUserSub)
    ensures |Valid(ZeroUserSub)| == 4
  {
    ValidIsNeverEmpty(ZeroUserSub);
  }

  /** `CreateUser`: 400 when the body is refused, 500 when the insert fails, else 204. */
  method CreateUser(db: Db, decoded: Result<UserSub>, fault: bool) returns (status: int)
    requires db.Valid()
    modifies db
    ensures db.Valid()
    ensures ReadBody(decoded).Err? ==>
      status == StatusBadRequest && db.rows == old(db.rows) && db.nextId == old(db.nextId)
    ensures ReadBody(decoded).Ok? && fault ==>
      status == StatusInternalServerError && db.rows == old(db.rows) && db.nextId == old(db.nextId)
    ensures ReadBody(decoded).Ok? && !fault ==>
      status == StatusNoContent && db.rows == old(db.rows) + [NewRow(old(db.nextId), decoded.value)] &&
      db.nextId == old(db.nextId) + 1
    ensures PricesNonNegative(old(db.rows)) ==> PricesNonNegative(db.rows)
  {
    var us := ReadBody(decoded);
    if us.Err? {
      return StatusBadRequest;
    }
    var err := db.AddUserToDb(us.value, fault);
    if err.Some? {
      return StatusInternalServerError;
    }
    if PricesNonNegative(old(db.rows)) {
      InsertKeepsPricesNonNegative(old(db.rows), old(db.nextId), us.value);
    }
    return StatusNoContent;
  }

  /** An empty body creates a row whose fields are all empty, with an open end. */
  lemma EmptyBodyInsertsZeroRow(id: int)
    ensures NewRow(id, ZeroUserSub) == Row(id, "", 0, "", ZeroMonthYear, ZeroMonthYear)
  {
  }

  /**
   * `GetUser`: 400 without an id, 404 when the lookup fails for any reason,
   * else 200 with the user's row of latest start date.
   */
  method GetUser(db: Db, userId: string, fault: bool) returns (status: int, body: Option<UserSub>)
    requires db.Valid()
    ensures userId == "" ==> status == StatusBadRequest && body.None?
    ensures userId != "" && (fault || !HasUser(db.rows, userId)) ==> status == StatusNotFound && body.None?
    ensures userId != "" && !fault && HasUser(db.rows, userId) ==> status == StatusOK && body.Some?
    ensures body.Some? ==>
      exists row | row in db.rows :: row.userId == userId && IsLatest(db.rows, userId, row) && body.value == ScanRow(row)
  {
    if userId == "" {
      return StatusBadRequest, None;
    }
    var r := db.SelectLatest(userId, fault);
    if r.Err? {
      return StatusNotFound, None;
    }
    return StatusOK, Some(ScanRow(r.value));
  }

  /**
   * `UpdateUser`: 400 without an id or with an undecodable body, 500 for
   * every error of the repository, else 200. The body is never validated.
   */
  method UpdateUser(db: Db, userId: string, decoded: Result<UserSub>, readFault: bool, writeFault: bool)
    returns (status: int)
    requires db.Valid()
    modifies db
    ensures db.Valid() && db.nextId == old(db.nextId)
    ensures userId == "" || decoded.Err? ==> status == StatusBadRequest
    ensures userId != "" && decoded.Ok? ==>
      (status == StatusOK <==>
        IdentityOk(userId, decoded.value) && !readFault && HasUser(old(db.rows), userId) && !writeFault)
    ensures status != StatusOK ==> db.rows == old(db.rows)
    ensures status == StatusOK ==>
      exists k | 0 <= k < |old(db.rows)| && old(db.rows)[k].userId == userId ::
        db.rows == Rewrite(old(db.rows), userId, Merge(old(db.rows)[k], decoded.value))
    ensures userId != "" && decoded.Ok? && status != StatusOK ==> status == StatusInternalServerError
    ensures status == StatusOK || status == StatusBadRequest || status == StatusInternalServerError
    ensures PricesNonNegative(old(db.rows)) ==> PricesNonNegative(db.rows)
  {
    if userId == "" {
      return StatusBadRequest;
    }
    if decoded.Err? {
      return StatusBadRequest;
    }
    var err := db.UpdateUserInDb(userId, decoded.value, readFault, writeFault);
    if err.Some? {
      return StatusInternalServerError;
    }
    if PricesNonNegative(old(db.rows)) {
      ghost var k :| 0 <= k < |old(db.rows)| && old(db.rows)[k].userId == userId &&
        db.rows == Rewrite(old(db.rows), userId, Merge(old(db.rows)[k], decoded.value));
      UpdateKeepsPricesNonNegative(old(db.rows), userId, k, decoded.value);
    }
    return StatusOK;
  }

  /** `GetAllUsers`: 500 when the query fails, else 200 with every row in ascending id order. */
  method GetAllUsers(db: Db, fault: bool) returns (status: int, body: seq<UserSub>)
    requires db.Valid()
    ensures fault ==> status == StatusInternalServerError && body == []
    ensures !fault ==> status == StatusOK && |body| == |db.rows|
    ensures !fault ==> forall i | 0 <= i < |body| :: body[i] == ScanRow(db.rows[i])
    ensures forall i, j | 0 <= i < j < |body| :: body[i].id < body[j].id
  {
    var r := db.SelectAll(fault);
    if r.Err? {
      return StatusInternalServerError, [];
    }
    AscendingListingIsUnique(r.value, db.rows);
    body := seq(|r.value|, i requires 0 <= i < |r.value| => ScanRow(r.value[i]));
    return StatusOK, body;
  }

  /** `DeleteUser`: 400 without an id, 500 when the statement fails, else 204 whether or not a row matched. */
  method DeleteUser(db: Db, userId: string, fault: bool) returns (status: int)
    requires db.Valid()
    modifies db
    ensures db.Valid() && db.nextId == old(db.nextId)
    ensures userId == "" ==> status == StatusBadRequest && db.rows == old(db.rows)
    ensures userId != "" && fault ==> status == StatusInternalServerError && db.rows == old(db.rows)
    ensures userId != "" && !fault ==> status == StatusNoContent && db.rows == Without(old(db.rows), userId)
    ensures PricesNonNegative(old(db.rows)) ==> PricesNonNegative(db.rows)
  {
    if userId == "" {
      return StatusBadRequest;
    }
    var err := db.DeleteWhereUser(userId, fault);
    if err.Some? {
      return StatusInternalServerError;
    }
    if PricesNonNegative(old(db.rows)) {
      DeleteKeepsPricesNonNegative(old(db.rows), userId);
    }
    return StatusNoContent;
  }

  /**
   * The query parameters of the total price mapped to a UserSub: the start
   * date must parse, the end date is parsed only when given and otherwise
   * stays nil; both pass through the JSON date decoder, quotes included.
   */
  function TotalPriceQuery(startDate: string, endDate: string, userId: string, serviceName: string)
    : (r: Result<UserSub>)
    ensures r.Err? <==>
      ParseMonthYear(TrimQuotes(startDate)).Err? ||
      (endDate != "" && ParseMonthYear(TrimQuotes(endDate)).Err?)
    ensures r.Err? ==> r.error == InvalidDateFormat
    ensures r.Ok? ==>
      r.value.id == 0 && r.value.monthlyPrice == 0 &&
      r.value.userId == userId && r.value.serviceName == serviceName
    ensures r.Ok? ==> MarshalJSON(r.value.startDate) == "\"" + TrimQuotes(startDate) + "\""
    ensures r.Ok? ==> (r.value.endDate.None? <==> endDate == "")
    ensures r.Ok? && endDate != "" ==> MarshalJSON(r.value.endDate.value) == "\"" + TrimQuotes(endDate) + "\""
  {
    var (start, startErr) := UnmarshalJSON(ZeroMonthYear, startDate);
    if startErr.Some? then Err(startErr.value)
    else if endDate == "" then Ok(UserSub(0, serviceName, 0, userId, start, None))
    else
      var (end, endErr) := UnmarshalJSON(ZeroMonthYear, endDate);
      if endErr.Some? then Err(endErr.value)
      else Ok(UserSub(0, serviceName, 0, userId, start, Some(end)))
  }

  /**
   * `GetTotalPrice`: 400 for a bad date; without an end date the repository
   * dereferences nil and the connection is dropped; 500 when the query
   * fails or matches no row; else 200 with the sum of the included prices.
   */
  method GetTotalPrice(db: Db, startDate: string, endDate: string, userId: string, serviceName: string, fault: bool)
    returns (reply: Reply, total: Option<int>)
    requires db.Valid()
    ensures TotalPriceQuery(startDate, endDate, userId, serviceName).Err? ==>
      reply == Sent(StatusBadRequest) && total.None?
    ensures TotalPriceQuery(startDate, endDate, userId, serviceName).Ok? && endDate == "" ==>
      reply == Aborted && total.None?
    ensures TotalPriceQuery(startDate, endDate, userId, serviceName).Ok? && endDate != "" && fault ==>
      reply == Sent(StatusInternalServerError) && total.None?
    ensures TotalPriceQuery(startDate, endDate, userId, serviceName).Ok? && endDate != "" && !fault ==>
      var us := TotalPriceQuery(startDate, endDate, userId, serviceName).value;
      (IncludedPrices(db.rows, us) == [] ==> reply == Sent(StatusInternalServerError) && total.None?) &&
      (IncludedPrices(db.rows, us) != [] ==> reply == Sent(StatusOK) && total == Some(Sum(IncludedPrices(db.rows, us))))
  {
    var query := TotalPriceQuery(startDate, endDate, userId, serviceName);
    if query.Err? {
      return Sent(StatusBadRequest), None;
    }
    var totalPrice, err := db.CalculateTotalPrice(query.value, fault);
    if err == Some(NilDereference) {
      return Aborted, None;
    }
    if err.Some? {
      return Sent(StatusInternalServerError), None;
    }
    return Sent(StatusOK), Some(totalPrice);
  }
}
