/**
 * The two payload checks of the service, specialised to `UserSub`: the
 * reflective "all fields zero" test and the struct-tag validator.
 */
module Helpers {
  import opened Common
  import opened Models

  /** `IsStructEmpty`: deep equality with the zero UserSub. A nil and a non-nil `EndDate` differ. */
  function IsStructEmpty(us: UserSub): (empty: bool)
    ensures empty <==>
      us.id == 0 && us.serviceName == "" && us.monthlyPrice == 0 && us.userId == "" &&
      us.startDate == ZeroMonthYear && us.endDate.None?
  {
    us == ZeroUserSub
  }

  /** A payload carrying an end date is never empty, even when that date is the zero month. */
  lemma NonNilEndDateIsNotEmpty(us: UserSub)
    requires us.endDate.Some?
    ensures !IsStructEmpty(us)
    ensures !IsStructEmpty(ZeroUserSub.(endDate := Some(ZeroMonthYear)))
  {
  }

  // ---------------------------------------------------------------------
  // The uuid4 tag
  // ---------------------------------------------------------------------

  predicate IsLowerHex(c: char)
  {
    '0' <= c <= '9' || 'a' <= c <= 'f'
  }

  predicate AllLowerHex(s: string)
  {
    forall i | 0 <= i < |s| :: IsLowerHex(s[i])
  }

  /** What the 8-4-4-4-12 version-4 layout allows at position `i`. */
  predicate Uuid4CharOk(i: int, c: char)
  {
    if i == 8 || i == 13 || i == 18 || i == 23 then c == '-'
    else if i == 14 then c == '4'
    else if i == 19 then c == '8' || c == '9' || c == 'a' || c == 'b'
    else IsLowerHex(c)
  }

  /** The `uuid4` tag: lower-case hex, version nibble 4, variant 8, 9, a or b. */
  predicate IsUuid4(s: string)
  {
    |s| == 36 && forall i | 0 <= i < |s| :: Uuid4CharOk(i, s[i])
  }

  /** A version-4 UUID assembled from its five groups, version and variant written out. */
  function Uuid4Text(g1: string, g2: string, g3: string, variant: char, g4: string, g5: string): string
  {
    g1 + "-" + g2 + "-4" + g3 + "-" + [variant] + g4 + "-" + g5
  }

  /** Every assembly of hex groups of the right widths with a legal variant passes the tag. */
  lemma Uuid4FromGroups(g1: string, g2: string, g3: string, variant: char, g4: string, g5: string)
    requires |g1| == 8 && |g2| == 4 && |g3| == 3 && |g4| == 3 && |g5| == 12
    requires AllLowerHex(g1) && AllLowerHex(g2) && AllLowerHex(g3) && AllLowerHex(g4) && AllLowerHex(g5)
    requires variant in "89ab"
    ensures IsUuid4(Uuid4Text(g1, g2, g3, variant, g4, g5))
  {
    var s := Uuid4Text(g1, g2, g3, variant, g4, g5);
    assert |s| == 36;
    forall i | 0 <= i < 36
      ensures Uuid4CharOk(i, s[i])
    {
      if i < 8 { assert s[i] == g1[i]; }
      else if 9 <= i < 13 { assert s[i] == g2[i - 9]; }
      else if 15 <= i < 18 { assert s[i] == g3[i - 15]; }
      else if 20 <= i < 23 { assert s[i] == g4[i - 20]; }
      else if 24 <= i { assert s[i] == g5[i - 24]; }
    }
  }

  /** Every text that passes the tag is such an assembly. */
  lemma Uuid4HasGroups(s: string)
    requires IsUuid4(s)
    ensures s == Uuid4Text(s[..8], s[9..13], s[15..18], s[19], s[20..23], s[24..])
    ensures AllLowerHex(s[..8]) && AllLowerHex(s[9..13]) && AllLowerHex(s[15..18])
    ensures AllLowerHex(s[20..23]) && AllLowerHex(s[24..])
    ensures s[19] in "89ab"
  {
    assert Uuid4CharOk(19, s[19]);
    forall i | 0 <= i < 8 ensures IsLowerHex(s[..8][i]) { assert Uuid4CharOk(i, s[i]); }
    forall i | 0 <= i < 4 ensures IsLowerHex(s[9..13][i]) { assert Uuid4CharOk(i + 9, s[i + 9]); }
    forall i | 0 <= i < 3 ensures IsLowerHex(s[15..18][i]) { assert Uuid4CharOk(i + 15, s[i + 15]); }
    forall i | 0 <= i < 3 ensures IsLowerHex(s[20..23][i]) { assert Uuid4CharOk(i + 20, s[i + 20]); }
    forall i | 0 <= i < 12 ensures IsLowerHex(s[24..][i]) { assert Uuid4CharOk(i + 24, s[i + 24]); }
    assert Uuid4CharOk(8, s[8]) && Uuid4CharOk(13, s[13]) && Uuid4CharOk(14, s[14]);
    assert Uuid4CharOk(18, s[18]) && Uuid4CharOk(23, s[23]);
    var t := Uuid4Text(s[..8], s[9..13], s[15..18], s[19], s[20..23], s[24..]);
    assert |t| == |s|;
    forall i | 0 <= i < |s| ensures t[i] == s[i] { }
  }

  // ---------------------------------------------------------------------
  // Valid
  // ---------------------------------------------------------------------

  /** The UserSub fields that carry a validation tag. */
  datatype Field = ServiceName | MonthlyPrice | UserId | StartDate

  /**
   * `Valid`: the fields whose tag rule fails, in declaration order (the
   * validator's error list); the Go function returns nil exactly when it is empty.
   * `required` on a string means non-empty, on a MonthYear not the zero value;
   * `Id` and `EndDate` carry no tag.
   */
  function Valid(us: UserSub): (failed: seq<Field>)
    ensures ServiceName in failed <==> us.serviceName == ""
    ensures MonthlyPrice in failed <==> us.monthlyPrice <= 0
    ensures UserId in failed <==> us.userId == "" || !IsUuid4(us.userId)
    ensures StartDate in failed <==> us.startDate == ZeroMonthYear
    ensures forall i, j | 0 <= i < j < |failed| :: failed[i] != failed[j]
  {
    (if us.serviceName == "" then [ServiceName] else []) +
    (if us.monthlyPrice > 0 then [] else [MonthlyPrice]) +
    (if us.userId == "" || !IsUuid4(us.userId) then [UserId] else []) +
    (if us.startDate == ZeroMonthYear then [StartDate] else [])
  }

  /** A payload that passes validation is never the empty payload, and the empty payload fails every tag. */
  lemma ValidIsNeverEmpty(us: UserSub)
    ensures Valid(us) == [] ==> !IsStructEmpty(us)
    ensures Valid(ZeroUserSub) == [ServiceName, MonthlyPrice, UserId, StartDate]
  {
  }

  /** `Id` and `EndDate` play no part in validation. */
  lemma ValidIgnoresIdAndEndDate(us: UserSub, id: int, endDate: Option<MonthYear>)
    ensures Valid(us.(id := id, endDate := endDate)) == Valid(us)
  {
  }

  /** The lower-case version-4 UUID 60601fee-2bf1-4721-ae6f-7636e79a0cba passes the tag. */
  lemma Uuid4AcceptsExample()
    ensures IsUuid4(Uuid4Text("60601fee", "2bf1", "721", 'a', "e6f", "7636e79a0cba"))
  {
    assert AllLowerHex("60601fee") && AllLowerHex("2bf1") && AllLowerHex("721") by {
      assert AllLowerHex("60601fee");
      assert AllLowerHex("2bf1");
      assert AllLowerHex("721");
    }
    assert AllLowerHex("e6f") && AllLowerHex("7636e79a0cba") by {
      assert AllLowerHex("e6f");
      assert AllLowerHex("7636e79a0cba");
    }
    Uuid4FromGroups("60601fee", "2bf1", "721", 'a', "e6f", "7636e79a0cba");
  }

  /** "not-a-uuid" fails the tag, and so does a UUID written in upper-case hex. */
  lemma Uuid4RejectsExamples()
    ensures !IsUuid4("not-a-uuid")
    ensures !IsUuid4("60601FEE-2BF1-4721-AE6F-7636E79A0CBA")
  {
    var upper := "60601FEE-2BF1-4721-AE6F-7636E79A0CBA";
    assert upper[5] == 'F' && !Uuid4CharOk(5, upper[5]);
  }
}
