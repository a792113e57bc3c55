# Subscription service data layer, in Dafny

This project models the core of a small Go HTTP service that records users'
paid subscriptions (service name, monthly price, user UUID, start month and
optional end month) in one Postgres table, `user_subscriptions`, and
answers "how much does this cost over a window of months". It models the
code and proves properties about it:

- `Models` (`models.dfy`): the month-granular date type `MonthYear` with its
  `MM-YYYY` JSON codec (`time.Parse`/`time.Format` with layout `01-2006`,
  after trimming double quotes) and its conversion to a timestamp. It also
  holds the `UserSub` record and the database settings record.
- `Helpers` (`helpers.dfy`): the two payload checks, specialised to
  `UserSub`. One is "every field has its zero value" (`reflect.DeepEqual`).
  The other is the struct-tag validator: `required`, `gt=0`, and `uuid4` as
  laid out in section 4.4 of RFC 4122.
- `Config` (`config.dfy`): `KeyGath`, the Postgres connection URL built
  from the five settings.
- `Database` (`db.dfy`): the table as a class `Db` holding the rows, in
  ascending id order, and the id sequence. Each repository function is a
  method on it: insert with the open-ended sentinel, the read-merge-write
  update, and the total-price aggregation with its WHERE-clause builder.
  The selects and the delete the handlers issue are methods too. Pure
  functions state what each statement does to the rows.
- `Handlers` (`handlers.dfy`): `ReadBody` and the status-code decisions of
  the six handlers, as methods over the table.
- `Common` (`common.dfy`): `Option`, `Result` and the error kinds.

Storage failures are not caused by anything the model can see. They are a
boolean parameter (`fault`, or `readFault`/`writeFault` for the two
statements of the update) that says whether that statement fails. The
outcome of JSON decoding of a request body is a parameter too
(`Result<UserSub>`). A month is a `(month, year)` pair with year `0..9999`:
these are exactly the values `time.Parse("01-2006", …)` produces, and the
zero `time.Time` is `01-0001`. Its timestamp is the number of months since
January of year 0, so the database's `'0001-01-01'` literal is timestamp 12.

The model follows the code, including where it behaves otherwise than a
client would expect:

- An aggregation that matches no row makes `SUM` return NULL. Scanning NULL
  into an `int` fails, so the handler answers 500 where a total of 0 would
  be expected (`Database.Db.CalculateTotalPrice`, `Handlers.GetTotalPrice`).
- A request body whose fields are all zero passes `ReadBody` with no error,
  although it fails every validation rule, so `CreateUser` inserts an
  all-empty row (`Handlers.EmptyBodyIsAccepted`,
  `Handlers.EmptyBodyInsertsZeroRow`).
- An update with the all-zero payload is guaranteed to leave the table
  unchanged when the user owns a single row
  (`Database.EmptyUpdateOfSingleRow`). When the user's rows differ in their
  terms, the terms of whichever row the unordered fetch returns are copied
  onto all of them (`Database.EmptyUpdateOfTwoRows`).
- The update fetches "a" row of the user with no `ORDER BY`. The model lets
  it be any row of the user, and the update's contract quantifies over that
  choice.
- An explicit end date of `01-0001` is stored exactly like a missing end
  date (`Database.ZeroEndDateIsOpenEnded`).
- A total-price request without `end_date` dereferences a nil pointer in the
  repository. The service installs no panic recovery of its own, so the
  connection is dropped with no response (`Reply.Aborted`).
- A window whose start is after its end covers no month, yet it still counts
  open-ended rows that started before its end
  (`Database.InvertedWindowStillCounts`).

## Model

| member | source | states |
|---|---|---|
| Models.ToTime | internal/models/models.go:49-51 | the conversion to a timestamp is lossless: a month is recovered from its timestamp, which lies in the range of four-digit years |
| Models.ToTimeOrder | internal/models/models.go:35-51 | two months have equal timestamps exactly when they are equal, and timestamp order is lexicographic (year, month) order |
| Models.SentinelIsZeroMonth | internal/db/db.go:49-54 | the only month whose timestamp equals the open-ended sentinel `'0001-01-01'` is the zero value `01-0001` |
| Models.ZeroPadValue | internal/models/models.go:45 | a number below 10^width written as a zero-padded field of that width reads back as the same number |
| Models.ValueZeroPad | internal/models/models.go:35 | every digit field is the zero-padded rendering of its own value, so leading zeros are kept |
| Models.FormatMonthYear | internal/models/models.go:44-45 | layout `01-2006` renders seven characters: two digits, a dash, four digits |
| Models.ParseMonthYear | internal/models/models.go:35-38 | a text is accepted only if rendering the parsed month gives that text back; every refusal is an invalid-date-format error |
| Models.ParseFormat | internal/models/models.go:35-45 | parsing what was rendered gives the month back |
| Models.ParseIsInverseOfFormat | internal/models/models.go:35-45 | parsing `s` yields month `m` if and only if `m` renders as `s` |
| Models.TrimLeftQuotes | internal/models/models.go:34 | the result is a suffix of the input that does not start with a quote, and everything removed was a quote |
| Models.TrimRightQuotes | internal/models/models.go:34 | the result is a prefix of the input that does not end with a quote, and everything removed was a quote |
| Models.TrimQuotesOfQuoted | internal/models/models.go:34 | one more pair of surrounding quotes does not change the trimmed text |
| Models.TrimQuotesUnquoted | internal/models/models.go:34 | a text neither starting nor ending with a quote is left unchanged |
| Models.MarshalJSON | internal/models/models.go:43-47 | the encoding is nine characters, quoted, and its inner seven characters parse back to the month |
| Models.UnmarshalJSON | internal/models/models.go:33-41 | on error the receiver is unchanged and the error is invalid-date-format; on success the new value encodes back to the trimmed input in quotes |
| Models.MarshalRoundTrip | internal/models/models.go:33-47 | decoding an encoded month gives that month with no error, whatever the receiver held |
| Models.UnmarshalRoundTrip | internal/models/models.go:33-46 | every unquoted text the layout accepts decodes without error, and re-encodes to itself in quotes |
| Models.QuotingIsIrrelevant | internal/models/models.go:34 | a quoted text and the same text unquoted decode to the same value and error |
| Models.UnmarshalRejectsOtherShapes | internal/models/models.go:35-38 | `2024-01`, `13-2024`, `1-2024` and the empty text are refused and leave the receiver unchanged |
| Models.ZeroMonthYearFormat | internal/models/models.go:45 | the zero month renders as `01-0001` |
| Models.ZeroMonthYearText | internal/models/models.go:43-51 | the zero month encodes as `"01-0001"`, and decoding `01-0001` yields the zero month |
| Helpers.IsStructEmpty | internal/utils/helpers.go:9-11 | a payload is empty if and only if its id and price are 0, its strings are empty, its start is the zero month and its end date is nil |
| Helpers.NonNilEndDateIsNotEmpty | internal/utils/helpers.go:10 | a payload with a non-nil end date is never empty, even when that date is the zero month |
| Helpers.Uuid4FromGroups | internal/models/models.go:26 | every lower-case hex text in the 8-4-4-4-12 layout with version nibble 4 and variant 8, 9, a or b passes the `uuid4` tag |
| Helpers.Uuid4HasGroups | internal/models/models.go:26 | every text that passes the `uuid4` tag is such a layout |
| Helpers.Valid | internal/utils/helpers.go:13-16 | validation fails on the service name iff it is empty, the price iff it is not positive, the user id iff it is empty or not a version-4 UUID, the start iff it is the zero month; no field is reported twice |
| Helpers.ValidIsNeverEmpty | internal/models/models.go:24-27 | a payload that passes validation is never the empty payload, and the empty payload fails all four tags |
| Helpers.ValidIgnoresIdAndEndDate | internal/models/models.go:23-28 | changing the id or the end date never changes the validation outcome |
| Helpers.Uuid4AcceptsExample | internal/models/models.go:26 | the lower-case version-4 UUID `60601fee-2bf1-4721-ae6f-7636e79a0cba`, given by its groups, passes the tag |
| Helpers.Uuid4RejectsExamples | internal/models/models.go:26 | `not-a-uuid` and an upper-case UUID fail the tag |
| Config.KeyGath | internal/config/config.go:34-40 | the key is empty if and only if a setting is missing; otherwise it starts with `postgres://`, ends with `?sslmode=disable`, and its length is that of the five settings plus the fixed text |
| Config.KeyGathShape | internal/config/config.go:39 | the key of a complete configuration is the scheme, then user, `:`, password, `@`, host, `:`, port, `/`, name, then the options |
| Config.KeyGathRoundTrip | internal/config/config.go:39 | when no setting holds the separator that follows it, the five settings can be read back from the key in the order user, password, host, port, name |
| Config.KeyGathDoesNotEscape | internal/config/config.go:39 | two different configurations can produce the same key, because no setting is escaped |
| Database.ConnectDb | internal/db/db.go:18-31 | the empty key is refused as a configuration error; a connection exists only for a non-empty key the database accepts |
| Database.MissingSettingIsRefused | internal/db/db.go:19-21 | a configuration with a missing setting never reaches a connection attempt |
| Database.NewRow | internal/db/db.go:49-63 | the inserted row copies the service, price, user and start, takes the sequence id, stores a given end date as is, and holds the sentinel iff the end date is nil or the zero month |
| Database.ZeroEndDateIsOpenEnded | internal/db/db.go:49-54 | an explicit end date of `01-0001` is stored exactly like no end date |
| Database.ScanRow | internal/db/db.go:83-84 | a scanned row always has a non-nil end date, and inserting the scanned record again would store the same row |
| Database.Merge | internal/db/db.go:89-104 | the merged record keeps the fetched id and user id |
| Database.MergeZeroPayload | internal/db/db.go:89-104 | the all-zero payload merges to the fetched row itself |
| Database.MergeIdempotent | internal/db/db.go:89-104 | merging the same payload twice is merging it once |
| Database.MergeIgnoresNonPositivePrice | internal/db/db.go:92-94 | a zero or negative price in the payload never reaches the table |
| Database.Rewrite | internal/db/db.go:106-112 | the update keeps the row count, every id and user id, and every other user's row; all rows of the user take the merged terms |
| Database.RewriteKeepsIds | internal/db/db.go:106-112 | the update keeps the table's ids ascending and below the next sequence value |
| Database.InsertKeepsPricesNonNegative | internal/db/db.go:49-63 | inserting a payload whose price is at least 0 keeps every stored price at least 0 |
| Database.UpdateKeepsPricesNonNegative | internal/db/db.go:91-93 | the update never stores a negative price, whatever the payload's price, since only a positive one is taken |
| Database.DeleteKeepsPricesNonNegative | internal/handlers/handlers.go:153 | deleting a user's rows keeps every remaining price at least 0 |
| Database.EmptyUpdateOfSingleRow | internal/db/db.go:83-112 | an all-zero update of a user who owns one row leaves the table unchanged |
| Database.EmptyUpdateOfTwoRows | internal/db/db.go:83-112 | with two rows for one user, an all-zero update copies the fetched row's terms onto the other row |
| Database.Without | internal/handlers/handlers.go:153 | the delete keeps exactly the rows of other users, in ascending id order |
| Database.WithoutIdempotent | internal/handlers/handlers.go:153 | deleting a user twice is deleting them once |
| Database.WithoutAbsentUser | internal/handlers/handlers.go:153-159 | deleting a user who has no rows leaves the table unchanged |
| Database.AscendingListingIsUnique | internal/handlers/handlers.go:123 | two listings of the same rows, both in ascending id order, are equal |
| Database.SameHead | internal/handlers/handlers.go:123 | two ascending listings of the same rows start with the same row, the one of least id |
| Database.BuildConditions | internal/db/db.go:127-146 | the predicate list, argument list and placeholder counter stay in lockstep; predicate i uses `$i`; the two base predicates come first, then the user filter, then the service filter; the arguments are the query end, the query start and the given filter values in that order; a row satisfies every predicate iff the inclusion rule holds |
| Database.ClauseMeaning | internal/db/db.go:127-152 | the built predicates, read with their arguments and joined with AND, hold for a row iff the row started no later than the query end, is open-ended or ended no earlier than the query start, and matches each given filter |
| Database.MatchesAppend | internal/db/db.go:148-152 | a clause joined with AND from two lists of predicates holds iff both lists hold |
| Database.SameSelection | internal/db/db.go:148-154 | the WHERE clause selects the same prices, in the same order, as the inclusion rule |
| Database.NoIncludedRow | internal/db/db.go:148-157 | the selection is empty if and only if no row satisfies the inclusion rule |
| Database.FilterNarrowsSelection | internal/db/db.go:136-152 | a query with more filters over the same window selects a sub-multiset of the prices |
| Database.FilterNarrowsTotal | internal/db/db.go:136-152 | over a table with no negative price (which every table the handlers produce is), a query with more filters sums to no more |
| Database.IncludedMeansOverlap | internal/db/db.go:128-129 | for a proper window and a proper row, a row is included iff the filters match and the row is active in some month of the window |
| Database.InvertedWindowStillCounts | internal/db/db.go:128-132 | a window with its start after its end covers no month, yet still includes an open-ended row that started earlier |
| Database.WindowExample | internal/db/db.go:128-129 | the window `01-2024..12-2024` includes an open-ended row from `03-2024` and not one from `01-2025` |
| Database.LatestExists | internal/handlers/handlers.go:63 | a user who has rows has a row of greatest start date |
| Database.Db.AddUserToDb | internal/db/db.go:45-69 | the insert appends the new row under the next id; on failure nothing changes; the table invariant holds |
| Database.Db.UpdateUserInDb | internal/db/db.go:71-119 | an empty id and a changed user id are refused before any read; a failed read, a user with no rows and a failed write each give an error and change nothing; otherwise the table is the rewrite of the user's rows with the payload merged onto one of them |
| Database.Db.MergeFetched | internal/db/db.go:84-104 | the fetched row, scanned and overwritten field by field with what the payload sets, gives exactly the merged terms |
| Database.Db.UpdateWhereUser | internal/db/db.go:106-116 | a failed update changes nothing; otherwise every row of the user takes the terms and all other rows stay; the table invariant holds |
| Database.Db.CalculateTotalPrice | internal/db/db.go:121-160 | a nil end date fails as a nil dereference; a failed query gives a storage error; no included row gives 0 with a NULL-sum error; otherwise the total is the sum of the included rows' prices |
| Database.Db.SelectLatest | internal/handlers/handlers.go:62-63 | a failed query or a user with no rows gives an error; otherwise the result is a row of that user with the greatest start date |
| Database.Db.SelectAll | internal/handlers/handlers.go:122-123 | the listing holds every row of the table once, in ascending id order |
| Database.Db.DeleteWhereUser | internal/handlers/handlers.go:153 | a failed delete changes nothing; otherwise every row of the user is removed and all others stay |
| Handlers.ReadBody | internal/handlers/handlers.go:210-225 | a decode error is passed on, and a decode error is returned only for one; the body is accepted iff it decoded and is either all-zero or passes validation; an accepted body is returned unchanged and has a price of at least 0; a refused decoded body is a validation error |
| Handlers.EmptyBodyIsAccepted | internal/handlers/handlers.go:217-219 | the all-zero body is accepted although it fails all four validation rules |
| Handlers.EmptyBodyInsertsZeroRow | internal/handlers/handlers.go:27-39 | an accepted empty body inserts a row with empty fields and the open-ended sentinel |
| Handlers.CreateUser | internal/handlers/handlers.go:25-41 | a refused body gives 400 and no insert; a failed insert gives 500; otherwise 204, the row is appended under the next id and the id sequence advances by one; no negative price is stored |
| Handlers.GetUser | internal/handlers/handlers.go:54-72 | an empty id gives 400; a failed lookup or a user with no rows gives 404; otherwise 200 with the user's row of greatest start date |
| Handlers.UpdateUser | internal/handlers/handlers.go:86-109 | an empty id or an undecodable body gives 400; with an id and a decoded body, 200 iff the repository update succeeds, without validating the body, and every repository error (changed user id, failed read, no rows, failed write) gives 500; a non-200 answer changes nothing; no negative price is stored |
| Handlers.GetAllUsers | internal/handlers/handlers.go:120-132 | a failed query gives 500; otherwise 200 with every row of the table, in ascending id order |
| Handlers.DeleteUser | internal/handlers/handlers.go:145-161 | an empty id gives 400 and a failed delete 500, both changing nothing; otherwise 204 with the user's rows removed, even when there were none; no negative price appears |
| Handlers.TotalPriceQuery | internal/handlers/handlers.go:165-192 | the query fails iff the trimmed start date, or a given trimmed end date, does not parse; the end date is nil iff it was not given; the parsed dates encode back to the trimmed parameters |
| Handlers.GetTotalPrice | internal/handlers/handlers.go:163-208 | a bad date gives 400; a missing end date drops the connection; a failed query or an empty selection gives 500; otherwise 200 with the sum of the included rows' prices |

## Left out

- `cmd/main.go` (server start, routing, shutdown) is not part of this model: it is plumbing.
- `InitConf` reads a YAML file and exits on error: file I/O.
- The connection attempt and migrations in `ConnectDb` and `runMigrations`: network and filesystem. A parameter says whether the database accepts the key.
- The five-second statement timeouts: a timeout is one more way for a statement to fail, which the `fault` parameters cover.
- SQL text: each statement is modelled by what it does to the rows, and each WHERE predicate by a constructor that carries its placeholder number. The `" AND "` join is not rendered as text.
- JSON encoding and decoding of bodies, response headers and messages: decoding is an input, and a response body is the value that would be encoded.
- Handlers.GetTotalPrice: a failed write of the response (the encoder returns the writer's error, for instance when the client has gone) is not modelled; the model ends with the total that would be written.
- Handlers.GetAllUsers: an empty table is encoded by Go as `null` rather than `[]`; the model returns the empty sequence.
- Concurrency between requests, including the race between the update's read and its write.
- Go `time.Time` internals (wall clock, monotonic reading, locations): a month is a `(month, year)` pair.
- Helpers.IsUuid4: the `uuid4` tag is taken to accept lower-case hex only; the validator library is not part of this model.
- Database.Db.CalculateTotalPrice: prices and the sum are unbounded integers, so overflow of the database sum or of Go `int` is not modelled.
- Database.Db.AddUserToDb: ids are consecutive; a sequence value consumed by a failed insert is not modelled.
