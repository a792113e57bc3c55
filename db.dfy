/**
 * The user_subscriptions table and the repository operations the service
 * runs on it: insert, read-merge-write update, and the total-price
 * aggregation with its dynamically assembled WHERE clause. The Postgres
 * table is a sequence of rows in ascending id order; each SQL statement is
 * given by what it does to that sequence.
 */
module Database {
  import opened Common
  import opened Models
  import Config

  // ---------------------------------------------------------------------
  // Rows
  // ---------------------------------------------------------------------

  /**
   * One row of user_subscriptions. The end_date column is never NULL: an
   * open-ended subscription stores the zero month 01-0001.
   */
  datatype Row = Row(
    id: int,
    serviceName: string,
    monthlyPrice: int,
    userId: string,
    startDate: MonthYear,
    endDate: MonthYear)

  predicate IdsAscending(rows: seq<Row>)
  {
    forall i, j | 0 <= i < j < |rows| :: rows[i].id < rows[j].id
  }

  /** Listings in ascending id order with the same rows are the same listing. */
  lemma {:induction false} AscendingListingIsUnique(a: seq<Row>, b: seq<Row>)
    requires IdsAscending(a) && IdsAscending(b) && multiset(a) == multiset(b)
    ensures a == b
  {
    if a == [] {
      assert |b| == |multiset(b)| == 0;
    } else {
      var a', b' := a[1..], b[1..];
      assert a[0] == b[0] && IdsAscending(a') && IdsAscending(b') && multiset(a') == multiset(b') by {
        assert |b| == |multiset(a)| == |a|;
        SameHead(a, b);
        TailOfAscending(a);
        TailOfAscending(b);
      }
      AscendingListingIsUnique(a', b');
      assert a == [a[0]] + a';
      assert b == [b[0]] + b';
    }
  }

  /** The first row of an ascending listing is the one of least id, so two listings of the same rows start alike. */
  lemma SameHead(a: seq<Row>, b: seq<Row>)
    requires IdsAscending(a) && IdsAscending(b) && multiset(a) == multiset(b)
    requires a != [] && b != []
    ensures a[0] == b[0]
  {
    assert a[0] in multiset(b) && b[0] in multiset(a);
    var i :| 0 <= i < |b| && b[i] == a[0];
    var j :| 0 <= j < |a| && a[j] == b[0];
    assert a[0].id <= a[j].id;
    assert b[0].id <= b[i].id;
  }

  /** Dropping the first row keeps the order and removes exactly that row. */
  lemma TailOfAscending(a: seq<Row>)
    requires IdsAscending(a) && a != []
    ensures IdsAscending(a[1..])
    ensures multiset(a[1..]) == multiset(a) - multiset{a[0]}
  {
    assert a == [a[0]] + a[1..];
    forall k, l | 0 <= k < l < |a[1..]| ensures a[1..][k].id < a[1..][l].id {
      assert a[k + 1] == a[1..][k] && a[l + 1] == a[1..][l];
    }
  }

  predicate HasUser(rows: seq<Row>, userId: string)
  {
    exists i | 0 <= i < |rows| :: rows[i].userId == userId
  }

  /**
   * The row INSERT writes for a payload under the id the sequence hands
   * out: `Id` is ignored and a nil end date becomes the zero time.
   */
  function NewRow(id: int, us: UserSub): (r: Row)
    ensures r.id == id && r.serviceName == us.serviceName && r.monthlyPrice == us.monthlyPrice
    ensures r.userId == us.userId && r.startDate == us.startDate
    ensures us.endDate.Some? ==> r.endDate == us.endDate.value
    ensures ToTime(r.endDate) == SentinelTime <==> us.endDate.None? || us.endDate == Some(ZeroMonthYear)
  {
    var endDate := if us.endDate.Some? then us.endDate.value else ZeroMonthYear;
    SentinelIsZeroMonth(endDate);
    Row(id, us.serviceName, us.monthlyPrice, us.userId, us.startDate, endDate)
  }

  /** An explicit end date of 01-0001 is stored exactly like no end date at all. */
  lemma ZeroEndDateIsOpenEnded(id: int, us: UserSub)
    ensures NewRow(id, us.(endDate := Some(ZeroMonthYear))) == NewRow(id, us.(endDate := None))
  {
  }

  /**
   * `SELECT *` scanned into a UserSub. The stored end date always comes back
   * as a non-nil pointer, the sentinel as 01-0001.
   */
  function ScanRow(r: Row): (us: UserSub)
    ensures us.endDate.Some? && NewRow(r.id, us) == r
  {
    UserSub(r.id, r.serviceName, r.monthlyPrice, r.userId, r.startDate, Some(r.endDate))
  }

  // ---------------------------------------------------------------------
  // Update: merge and bulk write
  // ---------------------------------------------------------------------

  /** Both identity checks of the update pass: a path id is given and the payload does not change it. */
  predicate IdentityOk(userId: string, us: UserSub)
  {
    userId != "" && (us.userId == "" || us.userId == userId)
  }

  /**
   * The merged record: each payload field replaces the fetched one only
   * when it is set (non-empty name, positive price, non-zero start, non-nil end).
   */
  function Merge(fetched: Row, payload: UserSub): (m: Row)
    ensures m.id == fetched.id && m.userId == fetched.userId
  {
    fetched.(
      serviceName := if payload.serviceName != "" then payload.serviceName else fetched.serviceName,
      monthlyPrice := if payload.monthlyPrice > 0 then payload.monthlyPrice else fetched.monthlyPrice,
      startDate := if payload.startDate != ZeroMonthYear then payload.startDate else fetched.startDate,
      endDate := if payload.endDate.Some? then payload.endDate.value else fetched.endDate)
  }

  /** The all-zero payload merges to the fetched row itself. */
  lemma MergeZeroPayload(fetched: Row)
    ensures Merge(fetched, ZeroUserSub) == fetched
  {
  }

  /** Merging the same payload twice changes nothing more. */
  lemma MergeIdempotent(fetched: Row, payload: UserSub)
    ensures Merge(Merge(fetched, payload), payload) == Merge(fetched, payload)
  {
  }

  /** A price that is zero or negative never reaches the table through an update. */
  lemma MergeIgnoresNonPositivePrice(fetched: Row, payload: UserSub)
    requires payload.monthlyPrice <= 0
    ensures Merge(fetched, payload).monthlyPrice == fetched.monthlyPrice
  {
  }

  /** The four columns the UPDATE statement sets agree. */
  predicate SameTerms(a: Row, b: Row)
  {
    a.serviceName == b.serviceName && a.monthlyPrice == b.monthlyPrice &&
    a.startDate == b.startDate && a.endDate == b.endDate
  }

  /**
   * `UPDATE ... SET service_name, monthly_price, start_date, end_date
   * WHERE user_id = $5`: every row of the user takes the merged terms;
   * ids, user ids and every other user's rows stay as they were.
   */
  function Rewrite(rows: seq<Row>, userId: string, m: Row): (r: seq<Row>)
    ensures |r| == |rows|
    ensures forall i | 0 <= i < |rows| :: r[i].id == rows[i].id && r[i].userId == rows[i].userId
    ensures forall i | 0 <= i < |rows| && rows[i].userId != userId :: r[i] == rows[i]
    ensures forall i | 0 <= i < |rows| && rows[i].userId == userId :: SameTerms(r[i], m)
  {
    if rows == [] then []
    else
      var head := if rows[0].userId == userId then
        rows[0].(serviceName := m.serviceName, monthlyPrice := m.monthlyPrice,
                 startDate := m.startDate, endDate := m.endDate)
      else rows[0];
      [head] + Rewrite(rows[1..], userId, m)
  }

  /** The update keeps every id, so the table's id invariant survives it. */
  lemma RewriteKeepsIds(rows: seq<Row>, userId: string, m: Row, nextId: int)
    requires IdsAscending(rows) && forall i | 0 <= i < |rows| :: 1 <= rows[i].id < nextId
    ensures var r := Rewrite(rows, userId, m);
      IdsAscending(r) && forall i | 0 <= i < |r| :: 1 <= r[i].id < nextId
  {
  }

  /** No stored price is negative. */
  predicate PricesNonNegative(rows: seq<Row>)
  {
    forall i | 0 <= i < |rows| :: rows[i].monthlyPrice >= 0
  }

  /** An insert of a payload whose price is not negative keeps every price non-negative. */
  lemma InsertKeepsPricesNonNegative(rows: seq<Row>, id: int, us: UserSub)
    requires PricesNonNegative(rows) && us.monthlyPrice >= 0
    ensures PricesNonNegative(rows + [NewRow(id, us)])
  {
  }

  /**
   * The update never stores a negative price, whatever the payload holds:
   * a payload price is taken only when it is positive.
   */
  lemma UpdateKeepsPricesNonNegative(rows: seq<Row>, userId: string, k: int, payload: UserSub)
    requires PricesNonNegative(rows) && 0 <= k < |rows|
    ensures PricesNonNegative(Rewrite(rows, userId, Merge(rows[k], payload)))
  {
  }

  /** The delete keeps a subset of the rows, so no negative price appears. */
  lemma DeleteKeepsPricesNonNegative(rows: seq<Row>, userId: string)
    requires PricesNonNegative(rows)
    ensures PricesNonNegative(Without(rows, userId))
  {
    var r := Without(rows, userId);
    forall i | 0 <= i < |r| ensures r[i].monthlyPrice >= 0 {
      assert r[i] in rows;
    }
  }

  /** When the user owns exactly one row, an update with the all-zero payload leaves the table as it was. */
  lemma EmptyUpdateOfSingleRow(rows: seq<Row>, k: int)
    requires 0 <= k < |rows|
    requires forall i | 0 <= i < |rows| && rows[i].userId == rows[k].userId :: i == k
    ensures Rewrite(rows, rows[k].userId, Merge(rows[k], ZeroUserSub)) == rows
  {
    var r := Rewrite(rows, rows[k].userId, Merge(rows[k], ZeroUserSub));
    forall i | 0 <= i < |rows|
      ensures r[i] == rows[i]
    {
      if rows[i].userId == rows[k].userId {
        assert i == k;
      }
    }
  }

  /** With two rows for one user, the same all-zero update copies the fetched row's terms onto the other. */
  lemma EmptyUpdateOfTwoRows()
    ensures
      var a := Row(1, "Netflix", 400, "u", MonthYear(1, 2024), ZeroMonthYear);
      var b := Row(2, "Spotify", 200, "u", MonthYear(3, 2024), ZeroMonthYear);
      Rewrite([a, b], "u", Merge(a, ZeroUserSub)) == [a, b.(serviceName := "Netflix", monthlyPrice := 400, startDate := MonthYear(1, 2024))]
  {
    var a := Row(1, "Netflix", 400, "u", MonthYear(1, 2024), ZeroMonthYear);
    var b := Row(2, "Spotify", 200, "u", MonthYear(3, 2024), ZeroMonthYear);
    var r := Rewrite([a, b], "u", Merge(a, ZeroUserSub));
    assert r[0] == a;
    assert r[1] == b.(serviceName := "Netflix", monthlyPrice := 400, startDate := MonthYear(1, 2024));
  }

  // ---------------------------------------------------------------------
  // Delete
  // ---------------------------------------------------------------------

  /** `DELETE FROM user_subscriptions WHERE user_id = $1`: the other users' rows, in their order. */
  function Without(rows: seq<Row>, userId: string): (r: seq<Row>)
    ensures |r| <= |rows|
    ensures forall x :: x in r <==> x in rows && x.userId != userId
    ensures IdsAscending(rows) ==> IdsAscending(r)
  {
    if rows == [] then []
    else if rows[0].userId == userId then Without(rows[1..], userId)
    else [rows[0]] + Without(rows[1..], userId)
  }

  /** Deleting a user twice is deleting them once. */
  lemma {:induction false} WithoutIdempotent(rows: seq<Row>, userId: string)
    ensures Without(Without(rows, userId), userId) == Without(rows, userId)
  {
    if rows != [] {
      WithoutIdempotent(rows[1..], userId);
    }
  }

  /** Deleting a user who has no rows changes nothing. */
  lemma {:induction false} WithoutAbsentUser(rows: seq<Row>, userId: string)
    requires !HasUser(rows, userId)
    ensures Without(rows, userId) == rows
  {
    if rows != [] {
      assert !HasUser(rows[1..], userId) by {
        forall i | 0 <= i < |rows[1..]| ensures rows[1..][i].userId != userId {
          assert rows[1..][i] == rows[i + 1];
        }
      }
      WithoutAbsentUser(rows[1..], userId);
      assert rows[0].userId != userId;
      assert rows == [rows[0]] + rows[1..];
    }
  }

  // ---------------------------------------------------------------------
  // Total price: the WHERE clause
  // ---------------------------------------------------------------------

  /** A positional query argument. */
  datatype Param = At(t: Timestamp) | Text(s: string)

  /** One predicate of the WHERE clause; `arg` is the number of its `$n` placeholder. */
  datatype Condition =
    | StartNotAfter(arg: int)        // start_date <= $n
    | EndOpenOrNotBefore(arg: int)   // (end_date = '0001-01-01' OR end_date >= $n)
    | UserIs(arg: int)               // user_id = $n
    | ServiceIs(arg: int)            // service_name = $n

  /** Whether a row satisfies one predicate, with its placeholder bound to `args[arg - 1]`. */
  predicate Holds(c: Condition, args: seq<Param>, row: Row)
  {
    1 <= c.arg <= |args| &&
    var p := args[c.arg - 1];
    match c
    case StartNotAfter(_) => p.At? && ToTime(row.startDate) <= p.t
    case EndOpenOrNotBefore(_) => ToTime(row.endDate) == SentinelTime || (p.At? && ToTime(row.endDate) >= p.t)
    case UserIs(_) => p == Text(row.userId)
    case ServiceIs(_) => p == Text(row.serviceName)
  }

  /** The predicates joined with " AND ". */
  predicate Matches(conditions: seq<Condition>, args: seq<Param>, row: Row)
  {
    forall i | 0 <= i < |conditions| :: Holds(conditions[i], args, row)
  }

  /** The optional filters of the total price: each one given must match. */
  predicate FiltersMatch(row: Row, us: UserSub)
  {
    (us.userId == "" || row.userId == us.userId) &&
    (us.serviceName == "" || row.serviceName == us.serviceName)
  }

  /**
   * The inclusion rule of the total price: the row started no later than
   * the query's end date and is open-ended or ended no earlier than the
   * query's start date, and the filters match.
   */
  predicate Included(row: Row, us: UserSub)
    requires us.endDate.Some?
  {
    NotAfter(row.startDate, us.endDate.value) &&
    (row.endDate == ZeroMonthYear || NotAfter(us.startDate, row.endDate)) &&
    FiltersMatch(row, us)
  }

  /**
   * The query builder: two base predicates, then the user filter and then
   * the service filter when given, each appended with its argument while
   * the placeholder counter advances. The caller has already dereferenced `EndDate`.
   */
  method BuildConditions(us: UserSub) returns (conditions: seq<Condition>, args: seq<Param>, argID: int)
    requires us.endDate.Some?
    ensures |conditions| == |args| == argID - 1
    ensures forall i | 0 <= i < |conditions| :: conditions[i].arg == i + 1
    ensures conditions ==
      [StartNotAfter(1), EndOpenOrNotBefore(2)] +
      (if us.userId != "" then [UserIs(3)] else []) +
      (if us.serviceName != "" then [ServiceIs(argID - 1)] else [])
    ensures args == QueryArgs(us)
    ensures forall row :: Matches(conditions, args, row) <==> Included(row, us)
  {
    conditions := [StartNotAfter(1), EndOpenOrNotBefore(2)];
    args := [At(ToTime(us.endDate.value)), At(ToTime(us.startDate))];
    argID := 3;
    if us.userId != "" {
      conditions := conditions + [UserIs(argID)];
      args := args + [Text(us.userId)];
      argID := argID + 1;
    }
    if us.serviceName != "" {
      conditions := conditions + [ServiceIs(argID)];
      args := args + [Text(us.serviceName)];
      argID := argID + 1;
    }
    forall row
      ensures Matches(conditions, args, row) <==> Included(row, us)
    {
      ClauseMeaning(us, conditions, args, row);
    }
  }

  /** The arguments the query builder binds, in placeholder order. */
  function QueryArgs(us: UserSub): seq<Param>
    requires us.endDate.Some?
  {
    [At(ToTime(us.endDate.value)), At(ToTime(us.startDate))] +
    (if us.userId != "" then [Text(us.userId)] else []) +
    (if us.serviceName != "" then [Text(us.serviceName)] else [])
  }

  /** Each predicate of the built clause, read with its argument, is one part of the inclusion rule. */
  lemma ClauseMeaning(us: UserSub, conditions: seq<Condition>, args: seq<Param>, row: Row)
    requires us.endDate.Some?
    requires args == QueryArgs(us)
    requires conditions ==
      [StartNotAfter(1), EndOpenOrNotBefore(2)] +
      (if us.userId != "" then [UserIs(3)] else []) +
      (if us.serviceName != "" then [ServiceIs(|args|)] else [])
    ensures Matches(conditions, args, row) <==> Included(row, us)
  {
    var window := [StartNotAfter(1), EndOpenOrNotBefore(2)];
    var byUser := if us.userId != "" then [UserIs(3)] else [];
    var byService := if us.serviceName != "" then [ServiceIs(|args|)] else [];
    MatchesAppend(window + byUser, byService, args, row);
    MatchesAppend(window, byUser, args, row);
    assert Matches(window, args, row) <==>
      NotAfter(row.startDate, us.endDate.value) &&
      (row.endDate == ZeroMonthYear || NotAfter(us.startDate, row.endDate)) by {
      SentinelIsZeroMonth(row.endDate);
      assert Matches(window, args, row) <==> Holds(window[0], args, row) && Holds(window[1], args, row);
    }
    assert Matches(byUser, args, row) <==> us.userId == "" || row.userId == us.userId by {
      if us.userId != "" {
        assert args[2] == Text(us.userId);
        assert Matches(byUser, args, row) <==> Holds(byUser[0], args, row);
      }
    }
    assert Matches(byService, args, row) <==> us.serviceName == "" || row.serviceName == us.serviceName by {
      if us.serviceName != "" {
        assert args[|args| - 1] == Text(us.serviceName);
        assert Matches(byService, args, row) <==> Holds(byService[0], args, row);
      }
    }
  }

  /** A clause joined from two lists of predicates holds iff both lists hold. */
  lemma MatchesAppend(c1: seq<Condition>, c2: seq<Condition>, args: seq<Param>, row: Row)
    ensures Matches(c1 + c2, args, row) <==> Matches(c1, args, row) && Matches(c2, args, row)
  {
    var c := c1 + c2;
    assert forall i | 0 <= i < |c1| :: c[i] == c1[i];
    assert forall i | 0 <= i < |c2| :: c[|c1| + i] == c2[i];
  }

  // ---------------------------------------------------------------------
  // Total price: the sum
  // ---------------------------------------------------------------------

  function Sum(xs: seq<int>): int
  {
    if xs == [] then 0 else xs[0] + Sum(xs[1..])
  }

  /** The prices of the rows the WHERE clause keeps, in table order. */
  function MatchingPrices(rows: seq<Row>, conditions: seq<Condition>, args: seq<Param>): seq<int>
  {
    if rows == [] then []
    else (if Matches(conditions, args, rows[0]) then [rows[0].monthlyPrice] else []) +
         MatchingPrices(rows[1..], conditions, args)
  }

  /** The prices of the rows the inclusion rule selects, in table order. */
  function IncludedPrices(rows: seq<Row>, us: UserSub): seq<int>
    requires us.endDate.Some?
  {
    if rows == [] then []
    else (if Included(rows[0], us) then [rows[0].monthlyPrice] else []) + IncludedPrices(rows[1..], us)
  }

  lemma {:induction false} SameSelection(rows: seq<Row>, conditions: seq<Condition>, args: seq<Param>, us: UserSub)
    requires us.endDate.Some?
    requires forall row :: Matches(conditions, args, row) <==> Included(row, us)
    ensures MatchingPrices(rows, conditions, args) == IncludedPrices(rows, us)
  {
    if rows != [] {
      SameSelection(rows[1..], conditions, args, us);
    }
  }

  /** Nothing is selected exactly when no row satisfies the inclusion rule. */
  lemma {:induction false} NoIncludedRow(rows: seq<Row>, us: UserSub)
    requires us.endDate.Some?
    ensures IncludedPrices(rows, us) == [] <==> forall i | 0 <= i < |rows| :: !Included(rows[i], us)
  {
    if rows != [] {
      NoIncludedRow(rows[1..], us);
      assert forall i | 1 <= i < |rows| :: rows[i] == rows[1..][i - 1];
    }
  }

  /** `a` asks for at least the filters `b` asks for, over the same window. */
  predicate Narrower(a: UserSub, b: UserSub)
  {
    a.startDate == b.startDate && a.endDate == b.endDate &&
    (b.userId == "" || a.userId == b.userId) &&
    (b.serviceName == "" || a.serviceName == b.serviceName)
  }

  /**
   * Predicates are joined with AND, so adding a filter can only drop rows:
   * the narrower query selects a sub-multiset of the prices.
   */
  lemma {:induction false} FilterNarrowsSelection(rows: seq<Row>, a: UserSub, b: UserSub)
    requires a.endDate.Some? && Narrower(a, b)
    ensures multiset(IncludedPrices(rows, a)) <= multiset(IncludedPrices(rows, b))
  {
    if rows != [] {
      FilterNarrowsSelection(rows[1..], a, b);
      assert Included(rows[0], a) ==> Included(rows[0], b);
    }
  }

  /** With non-negative prices, the narrower query sums to no more. */
  lemma {:induction false} FilterNarrowsTotal(rows: seq<Row>, a: UserSub, b: UserSub)
    requires a.endDate.Some? && Narrower(a, b)
    requires PricesNonNegative(rows)
    ensures Sum(IncludedPrices(rows, a)) <= Sum(IncludedPrices(rows, b))
  {
    if rows != [] {
      assert forall i | 0 <= i < |rows[1..]| :: rows[1..][i].monthlyPrice >= 0 by {
        forall i | 0 <= i < |rows[1..]| ensures rows[1..][i].monthlyPrice >= 0 {
          assert rows[1..][i] == rows[i + 1];
        }
      }
      FilterNarrowsTotal(rows[1..], a, b);
      assert Included(rows[0], a) ==> Included(rows[0], b);
      var pa := if Included(rows[0], a) then [rows[0].monthlyPrice] else [];
      var pb := if Included(rows[0], b) then [rows[0].monthlyPrice] else [];
      SumAppend(pa, IncludedPrices(rows[1..], a));
      SumAppend(pb, IncludedPrices(rows[1..], b));
    }
  }

  lemma {:induction false} SumAppend(xs: seq<int>, ys: seq<int>)
    ensures Sum(xs + ys) == Sum(xs) + Sum(ys)
  {
    if xs != [] {
      assert (xs + ys)[0] == xs[0] && (xs + ys)[1..] == xs[1..] + ys;
      SumAppend(xs[1..], ys);
    } else {
      assert xs + ys == ys;
    }
  }

  /** The months a row is active: from its start on, and up to its end unless it is open-ended. */
  predicate ActiveIn(row: Row, m: MonthYear)
  {
    NotAfter(row.startDate, m) && (row.endDate == ZeroMonthYear || NotAfter(m, row.endDate))
  }

  /**
   * For a window whose start is not after its end and a row whose end is
   * not before its start, inclusion is exactly "some month of the window
   * is a month the row is active", with the filters matching.
   */
  lemma IncludedMeansOverlap(row: Row, us: UserSub)
    requires us.endDate.Some? && NotAfter(us.startDate, us.endDate.value)
    requires row.endDate == ZeroMonthYear || NotAfter(row.startDate, row.endDate)
    ensures Included(row, us) <==>
      FiltersMatch(row, us) &&
      exists m :: NotAfter(us.startDate, m) && NotAfter(m, us.endDate.value) && ActiveIn(row, m)
  {
    if Included(row, us) {
      var m := if NotAfter(row.startDate, us.startDate) then us.startDate else row.startDate;
      assert NotAfter(us.startDate, m) && NotAfter(m, us.endDate.value) && ActiveIn(row, m);
    }
  }

  /** An inverted window (start after end) covers no month, yet still counts an open-ended row. */
  lemma InvertedWindowStillCounts()
    ensures
      var row := Row(1, "Netflix", 400, "u", MonthYear(1, 2023), ZeroMonthYear);
      var us := UserSub(0, "", 0, "", MonthYear(12, 2024), Some(MonthYear(1, 2024)));
      Included(row, us) && !exists m :: NotAfter(us.startDate, m) && NotAfter(m, us.endDate.value)
  {
  }

  /** The window 01-2024..12-2024 counts an open-ended row from 03-2024 and not one from 01-2025. */
  lemma WindowExample()
    ensures
      var us := UserSub(0, "", 0, "", MonthYear(1, 2024), Some(MonthYear(12, 2024)));
      Included(Row(1, "Netflix", 400, "u", MonthYear(3, 2024), ZeroMonthYear), us) &&
      !Included(Row(2, "Netflix", 400, "u", MonthYear(1, 2025), ZeroMonthYear), us)
  {
  }

  // ---------------------------------------------------------------------
  // Single-row lookups
  // ---------------------------------------------------------------------

  /** `r` has the greatest start date among the user's rows. */
  predicate IsLatest(rows: seq<Row>, userId: string, r: Row)
  {
    forall x | x in rows && x.userId == userId :: NotAfter(x.startDate, r.startDate)
  }

  lemma {:induction false} LatestExists(rows: seq<Row>, userId: string)
    requires HasUser(rows, userId)
    ensures exists k | 0 <= k < |rows| :: rows[k].userId == userId && IsLatest(rows, userId, rows[k])
  {
    var tail := rows[1..];
    if HasUser(tail, userId) {
      LatestExists(tail, userId);
      var j :| 0 <= j < |tail| && tail[j].userId == userId && IsLatest(tail, userId, tail[j]);
      assert rows == [rows[0]] + tail;
      if rows[0].userId == userId && !NotAfter(rows[0].startDate, tail[j].startDate) {
        assert IsLatest(rows, userId, rows[0]);
      } else {
        assert rows[j + 1] == tail[j] && IsLatest(rows, userId, rows[j + 1]);
      }
    } else {
      assert forall i | 1 <= i < |rows| :: rows[i] == tail[i - 1];
      assert rows[0].userId == userId;
      assert IsLatest(rows, userId, rows[0]);
    }
  }

  // ---------------------------------------------------------------------
  // Connection
  // ---------------------------------------------------------------------

  /** An open connection to the database behind `key`. */
  datatype Connection = Connection(key: string)

  /**
   * `ConnectDb`: the empty key is refused before anything is attempted;
   * otherwise the outcome is whether the database accepts the connection.
   */
  function ConnectDb(key: string, accepted: bool): (r: Result<Connection>)
    ensures key == "" ==> r == Err(BadConfig)
    ensures r.Ok? <==> key != "" && accepted
    ensures r.Ok? ==> r.value.key == key
  {
    if key == "" then Err(BadConfig)
    else if accepted then Ok(Connection(key))
    else Err(StorageError)
  }

  /** A configuration with any setting missing never reaches a connection attempt. */
  lemma MissingSettingIsRefused(conf: Database, accepted: bool)
    requires conf.host == "" || conf.port == "" || conf.user == "" || conf.password == "" || conf.name == ""
    ensures ConnectDb(Config.KeyGath(conf), accepted) == Err(BadConfig)
  {
  }

  // ---------------------------------------------------------------------
  // The table
  // ---------------------------------------------------------------------

  /** The user_subscriptions table with the sequence that numbers its ids. */
  class Db {
    var rows: seq<Row>
    var nextId: int

    ghost predicate Valid()
      reads this
    {
      1 <= nextId && IdsAscending(rows) &&
      forall i | 0 <= i < |rows| :: 1 <= rows[i].id < nextId
    }

    constructor ()
      ensures Valid() && rows == [] && nextId == 1
      ensures PricesNonNegative(rows)
    {
      rows := [];
      nextId := 1;
    }

    /** `AddUserToDb`: one INSERT; on a storage failure nothing is written. */
    method AddUserToDb(us: UserSub, fault: bool) returns (err: Option<Error>)
      requires Valid()
      modifies this
      ensures Valid()
      ensures err.Some? <==> fault
      ensures fault ==> err == Some(StorageError) && rows == old(rows) && nextId == old(nextId)
      ensures !fault ==> rows == old(rows) + [NewRow(old(nextId), us)] && nextId == old(nextId) + 1
    {
      var endDate: MonthYear;
      if us.endDate.Some? {
        endDate := us.endDate.value;
      } else {
        endDate := ZeroMonthYear;
      }
      if fault {
        return Some(StorageError);
      }
      rows := rows + [Row(nextId, us.serviceName, us.monthlyPrice, us.userId, us.startDate, endDate)];
      nextId := nextId + 1;
      return None;
    }

    /**
     * `UpdateUserInDb`: the identity checks, then one row of the user
     * fetched without any order, merged with the payload, and the merged
     * terms written to every row of the user.
     */
    method UpdateUserInDb(userId: string, us: UserSub, readFault: bool, writeFault: bool)
      returns (err: Option<Error>)
      requires Valid()
      modifies this
      ensures Valid() && nextId == old(nextId)
      ensures userId == "" ==> err == Some(MissingIdentity)
      ensures userId != "" && us.userId != "" && us.userId != userId ==> err == Some(ImmutableField)
      ensures IdentityOk(userId, us) && readFault ==> err == Some(StorageError)
      ensures IdentityOk(userId, us) && !readFault && !HasUser(old(rows), userId) ==> err == Some(NoRows)
      ensures IdentityOk(userId, us) && !readFault && HasUser(old(rows), userId) && writeFault ==>
        err == Some(StorageError)
      ensures err.None? <==>
        IdentityOk(userId, us) && !readFault && HasUser(old(rows), userId) && !writeFault
      ensures err.Some? ==> rows == old(rows)
      ensures err.None? ==>
        exists k | 0 <= k < |old(rows)| && old(rows)[k].userId == userId ::
          rows == Rewrite(old(rows), userId, Merge(old(rows)[k], us))
    {
      if userId == "" {
        return Some(MissingIdentity);
      } else if us.userId != "" && us.userId != userId {
        return Some(ImmutableField);
      }
      if readFault {
        return Some(StorageError);
      }
      if !HasUser(rows, userId) {
        return Some(NoRows);
      }
      var k :| 0 <= k < |rows| && rows[k].userId == userId;
      var terms := MergeFetched(rows[k], us);
      assert rows == old(rows);
      err := UpdateWhereUser(userId, terms, writeFault);
    }

    /** `UPDATE ... WHERE user_id = $5`: on success every row of the user takes the terms. */
    method UpdateWhereUser(userId: string, terms: Row, fault: bool) returns (err: Option<Error>)
      requires Valid()
      modifies this
      ensures Valid() && nextId == old(nextId)
      ensures err.Some? <==> fault
      ensures fault ==> err == Some(StorageError) && rows == old(rows)
      ensures !fault ==> rows == Rewrite(old(rows), userId, terms)
    {
      if fault {
        return Some(StorageError);
      }
      RewriteKeepsIds(rows, userId, terms, nextId);
      rows := Rewrite(rows, userId, terms);
      return None;
    }

    /**
     * The fetched row scanned into a record, then overwritten field by field
     * with what the payload sets; the end date falls back to the stored one.
     */
    static method MergeFetched(fetched: Row, us: UserSub) returns (terms: Row)
      ensures terms == Merge(fetched, us)
    {
      var userData := ScanRow(fetched);
      if us.serviceName != "" {
        userData := userData.(serviceName := us.serviceName);
      }
      if us.monthlyPrice > 0 {
        userData := userData.(monthlyPrice := us.monthlyPrice);
      }
      if us.startDate != ZeroMonthYear {
        userData := userData.(startDate := us.startDate);
      }
      var endDate: MonthYear;
      if us.endDate.Some? {
        endDate := us.endDate.value;
      } else {
        endDate := userData.endDate.value;
      }
      terms := Row(userData.id, userData.serviceName, userData.monthlyPrice, userData.userId, userData.startDate, endDate);
    }

    /**
     * `CalculateTotalPrice`: a nil end date is dereferenced (a panic); a
     * SUM over no rows is NULL, which cannot be scanned into an int.
     */
    method CalculateTotalPrice(us: UserSub, fault: bool) returns (totalPrice: int, err: Option<Error>)
      requires Valid()
      ensures us.endDate.None? ==> totalPrice == 0 && err == Some(NilDereference)
      ensures us.endDate.Some? && fault ==> totalPrice == 0 && err == Some(StorageError)
      ensures us.endDate.Some? && !fault && IncludedPrices(rows, us) == [] ==>
        totalPrice == 0 && err == Some(NullSum)
      ensures us.endDate.Some? && !fault && IncludedPrices(rows, us) != [] ==>
        totalPrice == Sum(IncludedPrices(rows, us)) && err == None
    {
      if us.endDate.None? {
        return 0, Some(NilDereference);
      }
      var conditions, args, argID := BuildConditions(us);
      if fault {
        return 0, Some(StorageError);
      }
      var selected := MatchingPrices(rows, conditions, args);
      SameSelection(rows, conditions, args, us);
      if selected == [] {
        return 0, Some(NullSum);
      }
      return Sum(selected), None;
    }

    /** `SELECT * ... WHERE user_id = $1 ORDER BY start_date DESC LIMIT 1`; ties are broken arbitrarily. */
    method SelectLatest(userId: string, fault: bool) returns (r: Result<Row>)
      requires Valid()
      ensures fault ==> r == Err(StorageError)
      ensures !fault && !HasUser(rows, userId) ==> r == Err(NoRows)
      ensures !fault && HasUser(rows, userId) ==> r.Ok?
      ensures r.Ok? ==> r.value in rows && r.value.userId == userId && IsLatest(rows, userId, r.value)
    {
      if fault {
        return Err(StorageError);
      }
      if !HasUser(rows, userId) {
        return Err(NoRows);
      }
      LatestExists(rows, userId);
      var k :| 0 <= k < |rows| && rows[k].userId == userId && IsLatest(rows, userId, rows[k]);
      return Ok(rows[k]);
    }

    /** `SELECT * ... ORDER BY id ASC`: every row, ids ascending. */
    method SelectAll(fault: bool) returns (r: Result<seq<Row>>)
      requires Valid()
      ensures fault ==> r == Err(StorageError)
      ensures !fault ==> r.Ok? && multiset(r.value) == multiset(rows) && IdsAscending(r.value)
    {
      if fault {
        return Err(StorageError);
      }
      return Ok(rows);
    }

    /** `DELETE ... WHERE user_id = $1`: every row of the user goes, all others stay. */
    method DeleteWhereUser(userId: string, fault: bool) returns (err: Option<Error>)
      requires Valid()
      modifies this
      ensures Valid() && nextId == old(nextId)
      ensures err.Some? <==> fault
      ensures fault ==> err == Some(StorageError) && rows == old(rows)
      ensures !fault ==> rows == Without(old(rows), userId)
    {
      if fault {
        return Some(StorageError);
      }
      rows := Without(rows, userId);
      return None;
    }
  }
}
