/**
 * The data model of the subscription service: the month-granular date type
 * `MonthYear` with its `MM-YYYY` JSON codec, the `UserSub` record and the
 * database settings record.
 */
module Models {
  import opened Common

  // ---------------------------------------------------------------------
  // MonthYear
  // ---------------------------------------------------------------------

  type Month = m: int | 1 <= m <= 12 witness 1

  /** time.Parse reads the `2006` field as exactly four digits. */
  type Year = y: int | 0 <= y <= 9999 witness 1

  /**
   * A `time.Time` pinned to the first instant of a month: the only values
   * of the Go type the service can produce are parsed ones and the zero value.
   */
  datatype MonthYear = MonthYear(month: Month, year: Year)

  /** The zero `time.Time`: January of year 1. */
  const ZeroMonthYear: MonthYear := MonthYear(1, 1)

  /** An instant at month granularity: months elapsed since January of year 0. */
  type Timestamp = int

  /** The literal '0001-01-01' that the aggregation query compares end dates with. */
  const SentinelTime: Timestamp := 12

  /** The conversion back from a stored timestamp (a Go type conversion). */
  function FromTime(t: Timestamp): MonthYear
    requires 0 <= t < 120000
  {
    MonthYear(t % 12 + 1, t / 12)
  }

  /** `ToTime`: the identity conversion to `time.Time`, here to a month instant. */
  function ToTime(my: MonthYear): (t: Timestamp)
    ensures 0 <= t < 120000 && FromTime(t) == my
  {
    my.year * 12 + my.month - 1
  }

  /** Chronological order of two months, as the database compares timestamps. */
  predicate NotAfter(a: MonthYear, b: MonthYear)
  {
    ToTime(a) <= ToTime(b)
  }

  /** Timestamps of distinct months never collide, and their order is (year, month) lexicographic. */
  lemma ToTimeOrder(a: MonthYear, b: MonthYear)
    ensures ToTime(a) == ToTime(b) <==> a == b
    ensures NotAfter(a, b) <==> a.year < b.year || (a.year == b.year && a.month <= b.month)
  {
    assert FromTime(ToTime(a)) == a && FromTime(ToTime(b)) == b;
  }

  /** The only month whose timestamp is the open-ended sentinel is the zero value `01-0001`. */
  lemma SentinelIsZeroMonth(my: MonthYear)
    ensures ToTime(my) == SentinelTime <==> my == ZeroMonthYear
  {
    assert FromTime(SentinelTime) == ZeroMonthYear;
  }

  // ---------------------------------------------------------------------
  // Decimal digits
  // ---------------------------------------------------------------------

  predicate IsDigit(c: char)
  {
    '0' <= c <= '9'
  }

  predicate AllDigits(s: string)
  {
    forall i | 0 <= i < |s| :: IsDigit(s[i])
  }

  function DigitChar(d: int): (c: char)
    requires 0 <= d <= 9
    ensures IsDigit(c) && c as int - '0' as int == d
  {
    (d + '0' as int) as char
  }

  function Pow10(k: nat): (p: nat)
    ensures p >= 1
  {
    if k == 0 then 1 else 10 * Pow10(k - 1)
  }

  /** The value of a digit string, most significant digit first. */
  function DecimalValue(s: string): (v: nat)
    requires AllDigits(s)
    ensures v < Pow10(|s|)
  {
    if s == [] then 0
    else DecimalValue(s[..|s| - 1]) * 10 + (s[|s| - 1] as int - '0' as int)
  }

  /** `n` written in exactly `width` digits, zero-padded on the left (a fixed-width layout field). */
  function ZeroPad(n: nat, width: nat): (s: string)
    ensures |s| == width && AllDigits(s)
  {
    if width == 0 then "" else ZeroPad(n / 10, width - 1) + [DigitChar(n % 10)]
  }

  lemma {:induction false} ZeroPadValue(n: nat, width: nat)
    requires n < Pow10(width)
    ensures DecimalValue(ZeroPad(n, width)) == n
  {
    if width > 0 {
      var s := ZeroPad(n, width);
      assert s[..|s| - 1] == ZeroPad(n / 10, width - 1);
      ZeroPadValue(n / 10, width - 1);
    }
  }

  lemma {:induction false} ValueZeroPad(s: string)
    requires AllDigits(s)
    ensures ZeroPad(DecimalValue(s), |s|) == s
  {
    if s != [] {
      var init := s[..|s| - 1];
      ValueZeroPad(init);
      var v := DecimalValue(s);
      assert v / 10 == DecimalValue(init) && v % 10 == s[|s| - 1] as int - '0' as int;
      assert s == init + [s[|s| - 1]];
    }
  }

  // ---------------------------------------------------------------------
  // The "01-2006" layout
  // ---------------------------------------------------------------------

  /** `time.Format` with layout "01-2006": two-digit month, dash, four-digit year. */
  function FormatMonthYear(my: MonthYear): (s: string)
    ensures |s| == 7 && s[2] == '-' && AllDigits(s[..2]) && AllDigits(s[3..])
  {
    ZeroPad(my.month, 2) + "-" + ZeroPad(my.year, 4)
  }

  /**
   * `time.Parse` with layout "01-2006": a fixed two-digit month in 01..12,
   * a dash, exactly four year digits, and nothing after them.
   */
  function ParseMonthYear(s: string): (r: Result<MonthYear>)
    ensures r.Ok? ==> FormatMonthYear(r.value) == s
    ensures r.Err? ==> r.error == InvalidDateFormat
  {
    if |s| == 7 && AllDigits(s[..2]) && s[2] == '-' && AllDigits(s[3..]) then
      var month := DecimalValue(s[..2]);
      var year := DecimalValue(s[3..]);
      assert Pow10(4) == 10000;
      if 1 <= month <= 12 then
        assert FormatMonthYear(MonthYear(month, year)) == s by {
          ValueZeroPad(s[..2]);
          ValueZeroPad(s[3..]);
          assert s == s[..2] + "-" + s[3..];
        }
        Ok(MonthYear(month, year))
      else
        Err(InvalidDateFormat)
    else
      Err(InvalidDateFormat)
  }

  lemma ParseFormat(my: MonthYear)
    ensures ParseMonthYear(FormatMonthYear(my)) == Ok(my)
  {
    var s := FormatMonthYear(my);
    assert s[..2] == ZeroPad(my.month, 2) && s[3..] == ZeroPad(my.year, 4);
    ZeroPadValue(my.month, 2);
    ZeroPadValue(my.year, 4);
  }

  /** Parsing accepts exactly the texts that formatting produces, and inverts it. */
  lemma ParseIsInverseOfFormat(s: string, my: MonthYear)
    ensures ParseMonthYear(s) == Ok(my) <==> FormatMonthYear(my) == s
  {
    if FormatMonthYear(my) == s {
      ParseFormat(my);
    }
  }

  // ---------------------------------------------------------------------
  // strings.Trim(s, "\"")
  // ---------------------------------------------------------------------

  function TrimLeftQuotes(s: string): (r: string)
    ensures |r| <= |s| && r == s[|s| - |r|..]
    ensures r == [] || r[0] != '"'
    ensures forall i | 0 <= i < |s| - |r| :: s[i] == '"'
  {
    if s != [] && s[0] == '"' then TrimLeftQuotes(s[1..]) else s
  }

  function TrimRightQuotes(s: string): (r: string)
    ensures |r| <= |s| && r == s[..|r|]
    ensures r == [] || r[|r| - 1] != '"'
    ensures forall i | |r| <= i < |s| :: s[i] == '"'
  {
    if s != [] && s[|s| - 1] == '"' then TrimRightQuotes(s[..|s| - 1]) else s
  }

  /** Removes every leading and every trailing double quote. */
  function TrimQuotes(s: string): string
  {
    TrimRightQuotes(TrimLeftQuotes(s))
  }

  lemma {:induction false} TrimLeftAppend(s: string, t: string)
    requires exists i | 0 <= i < |s| :: s[i] != '"'
    ensures TrimLeftQuotes(s + t) == TrimLeftQuotes(s) + t
  {
    if s[0] == '"' {
      assert (s + t)[1..] == s[1..] + t;
      var i :| 0 <= i < |s| && s[i] != '"';
      assert s[1..][i - 1] != '"';
      TrimLeftAppend(s[1..], t);
    }
  }

  lemma TrimRightDropsQuote(s: string)
    ensures TrimRightQuotes(s + "\"") == TrimRightQuotes(s)
  {
    assert (s + "\"")[..|s|] == s;
  }

  /** Surrounding a text with one more pair of quotes does not change what is trimmed to. */
  lemma TrimQuotesOfQuoted(s: string)
    ensures TrimQuotes("\"" + s + "\"") == TrimQuotes(s)
  {
    var q := "\"";
    assert ("\"" + s + "\"")[1..] == s + q;
    assert TrimLeftQuotes("\"" + s + "\"") == TrimLeftQuotes(s + q);
    if exists i | 0 <= i < |s| :: s[i] != '"' {
      TrimLeftAppend(s, q);
      TrimRightDropsQuote(TrimLeftQuotes(s));
    } else {
      assert TrimLeftQuotes(s) == [];
      assert forall i | 0 <= i < |s + q| :: (s + q)[i] == '"';
      assert TrimLeftQuotes(s + q) == [];
    }
  }

  /** A text that starts and ends with something other than a quote is left as it is. */
  lemma TrimQuotesUnquoted(s: string)
    requires s == [] || (s[0] != '"' && s[|s| - 1] != '"')
    ensures TrimQuotes(s) == s
  {
    if s != [] {
      assert TrimLeftQuotes(s) == s;
      assert TrimRightQuotes(s) == s;
    }
  }

  // ---------------------------------------------------------------------
  // The JSON codec of MonthYear
  // ---------------------------------------------------------------------

  /** `MonthYear.MarshalJSON`: the formatted month between double quotes. */
  function MarshalJSON(my: MonthYear): (b: string)
    ensures |b| == 9 && b[0] == '"' && b[8] == '"'
    ensures ParseMonthYear(b[1..8]) == Ok(my)
  {
    assert ("\"" + FormatMonthYear(my) + "\"")[1..8] == FormatMonthYear(my);
    ParseFormat(my);
    "\"" + FormatMonthYear(my) + "\""
  }

  /**
   * `(*MonthYear).UnmarshalJSON`: the receiver afterwards and the error.
   * Quotes are trimmed first; the receiver is assigned only when parsing succeeds.
   */
  function UnmarshalJSON(receiver: MonthYear, b: string): (r: (MonthYear, Option<Error>))
    ensures r.1.Some? ==> r.0 == receiver && r.1 == Some(InvalidDateFormat)
    ensures r.1.None? ==> MarshalJSON(r.0) == "\"" + TrimQuotes(b) + "\""
  {
    match ParseMonthYear(TrimQuotes(b))
    case Err(e) => (receiver, Some(e))
    case Ok(my) => (my, None)
  }

  /** Decoding what was encoded gives the same month back, whatever the receiver held. */
  lemma MarshalRoundTrip(receiver: MonthYear, my: MonthYear)
    ensures UnmarshalJSON(receiver, MarshalJSON(my)) == (my, None)
  {
    var f := FormatMonthYear(my);
    TrimQuotesOfQuoted(f);
    TrimQuotesUnquoted(f);
    ParseFormat(my);
  }

  /** For every accepted unquoted text, encoding the decoded value gives the text back in quotes. */
  lemma UnmarshalRoundTrip(receiver: MonthYear, s: string)
    requires ParseMonthYear(s).Ok?
    ensures UnmarshalJSON(receiver, s).1.None?
    ensures MarshalJSON(UnmarshalJSON(receiver, s).0) == "\"" + s + "\""
  {
    ParsedTextIsUnquoted(s);
    var my := ParseMonthYear(s).value;
    assert UnmarshalJSON(receiver, s) == (my, None);
  }

  lemma ParsedTextIsUnquoted(s: string)
    requires ParseMonthYear(s).Ok?
    ensures TrimQuotes(s) == s
  {
    assert s[0] != '"' && s[6] != '"' by {
      assert IsDigit(s[..2][0]) && IsDigit(s[3..][3]);
    }
    TrimQuotesUnquoted(s);
  }

  /** A quoted text and the same text unquoted decode alike. */
  lemma QuotingIsIrrelevant(receiver: MonthYear, s: string)
    ensures UnmarshalJSON(receiver, "\"" + s + "\"") == UnmarshalJSON(receiver, s)
  {
    TrimQuotesOfQuoted(s);
  }

  /** Texts of any other shape are refused and leave the receiver as it was. */
  lemma UnmarshalRejectsOtherShapes(receiver: MonthYear)
    ensures UnmarshalJSON(receiver, "2024-01") == (receiver, Some(InvalidDateFormat))
    ensures UnmarshalJSON(receiver, "13-2024") == (receiver, Some(InvalidDateFormat))
    ensures UnmarshalJSON(receiver, "1-2024") == (receiver, Some(InvalidDateFormat))
    ensures UnmarshalJSON(receiver, "") == (receiver, Some(InvalidDateFormat))
  {
    RejectedText(receiver, "2024-01");
    assert DecimalValue("13") == 13 by {
      assert "13"[..1] == "1";
    }
    RejectedText(receiver, "13-2024");
    RejectedText(receiver, "1-2024");
  }

  lemma RejectedText(receiver: MonthYear, s: string)
    requires s != [] && s[0] != '"' && s[|s| - 1] != '"'
    requires ParseMonthYear(s).Err?
    ensures UnmarshalJSON(receiver, s) == (receiver, Some(InvalidDateFormat))
  {
    TrimQuotesUnquoted(s);
  }

  lemma ZeroMonthYearFormat()
    ensures FormatMonthYear(ZeroMonthYear) == "01-0001"
  {
    assert ZeroPad(0, 1) == "0";
    assert ZeroPad(1, 2) == "01";
    assert ZeroPad(0, 2) == "00";
    assert ZeroPad(0, 3) == "000";
    assert ZeroPad(1, 4) == "0001";
  }

  /** The zero value encodes as `01-0001`, and `01-0001` decodes to the zero value. */
  lemma ZeroMonthYearText(receiver: MonthYear)
    ensures MarshalJSON(ZeroMonthYear) == "\"01-0001\""
    ensures UnmarshalJSON(receiver, "01-0001") == (ZeroMonthYear, None)
  {
    ZeroMonthYearEncodes();
    ZeroMonthYearDecodes(receiver);
  }

  lemma ZeroMonthYearEncodes()
    ensures MarshalJSON(ZeroMonthYear) == "\"01-0001\""
  {
    ZeroMonthYearFormat();
  }

  lemma ZeroMonthYearDecodes(receiver: MonthYear)
    ensures UnmarshalJSON(receiver, "01-0001") == (ZeroMonthYear, None)
  {
    ZeroMonthYearFormat();
    ParseFormat(ZeroMonthYear);
    ParsedTextIsUnquoted("01-0001");
  }

  // ---------------------------------------------------------------------
  // Records
  // ---------------------------------------------------------------------

  /** One subscription as it travels through the service; `endDate` is the Go `*MonthYear`. */
  datatype UserSub = UserSub(
    id: int,
    serviceName: string,
    monthlyPrice: int,
    userId: string,
    startDate: MonthYear,
    endDate: Option<MonthYear>)

  /** The Go zero value of UserSub. */
  const ZeroUserSub: UserSub := UserSub(0, "", 0, "", ZeroMonthYear, None)

  /** The database settings read from the configuration file. */
  datatype Database = Database(host: string, port: string, user: string, password: string, name: string)
}
