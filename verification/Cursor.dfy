/** The opaque page cursor: a two-field JSON object in padded base64url. */
module Cursor {
  import opened Wrappers
  import opened Timestamps
  import Base64Url

  const MAX_INT64 := 0x7fff_ffff_ffff_ffff
  const MIN_INT64 := -0x8000_0000_0000_0000

  type Int64 = n: int | MIN_INT64 <= n <= MAX_INT64

  datatype SyncCursor = SyncCursor(updatedAt: Time, id: Int64)

  datatype CursorError = InvalidCursor

  // ---- JSON ----

  function Magnitude(n: int): nat {
    if n < 0 then -n else n
  }

  function FormatInt(n: int): string {
    if n < 0 then "-" + Decimal(Magnitude(n)) else Decimal(Magnitude(n))
  }

  /** Digits without a leading zero. */
  function ParseDigits(s: string): Option<(nat, string)> {
    var k := DigitRun(s);
    if k == 0 || (k > 1 && s[0] == '0') then None else Some((Value(s[..k]), s[k..]))
  }

  /** A JSON integer within 64 bits. */
  function ParseInt(s: string): Option<(Int64, string)> {
    var negative := s != "" && s[0] == '-';
    match ParseDigits(if negative then s[1..] else s)
    case None => None
    case Some((v, rest)) =>
      var n: int := if negative then 0 - v else v;
      if MIN_INT64 <= n <= MAX_INT64 then Some((n, rest)) else None
  }

  const OPEN := "{"
  const UPDATED_AT := "\"updatedAt\":\""
  const ID := "\"id\":"
  const NULL := "null"
  const NULL_UPDATED_AT := "\"updatedAt\":null"

  function Marshal(c: SyncCursor): string
    requires Marshalable(c.updatedAt)
  {
    OPEN + (UPDATED_AT + Format(c.updatedAt, "\"" + ("," + (ID + (FormatInt(c.id) + "}")))))
  }

  /** One member of the object, stored over what the cursor held before; a null stores nothing. */
  function ParseMember(s: string, c: SyncCursor): Option<(SyncCursor, string)> {
    match Expect(s, UPDATED_AT)
    case Some(s1) => (
      match Parse(s1)
      case None => None
      case Some((t, s2)) =>
        match Expect(s2, "\"")
        case None => None
        case Some(s3) => Some((c.(updatedAt := t), s3)))
    case None =>
      match Expect(s, NULL_UPDATED_AT)
      case Some(s1) => Some((c, s1))
      case None =>
        match Expect(s, ID)
        case None => None
        case Some(s1) =>
          match ParseInt(s1)
          case Some((n, s2)) => Some((c.(id := n), s2))
          case None => if Expect(s1, NULL).Some? then Some((c, Expect(s1, NULL).value)) else None
  }

  /** The members up to the closing brace, in any order; a repeated one counts last. */
  function ParseMembers(s: string, c: SyncCursor): Option<SyncCursor>
    decreases |s|
  {
    match ParseMember(s, c)
    case None => None
    case Some((c', rest)) =>
      if rest == "}" then Some(c')
      else if rest != "" && rest[0] == ',' && |rest| <= |s| then ParseMembers(rest[1..], c')
      else None
  }

  /** A missing member keeps its zero value. */
  function Unmarshal(s: string): Option<SyncCursor> {
    var zero := SyncCursor(ZERO_TIME, 0);
    match Expect(s, OPEN)
    case None => None
    case Some(rest) => if rest == "}" then Some(zero) else ParseMembers(rest, zero)
  }

  lemma DigitsRoundTrip(n: nat, rest: string)
    requires rest == "" || !IsDigit(rest[0])
    ensures ParseDigits(Decimal(n) + rest) == Some((n, rest))
    ensures Decimal(n) != "" && Decimal(n)[0] != '-'
  {
    var digits := Decimal(n);
    DecimalValue(n);
    DigitRunOf(digits, rest);
    assert digits[0] in digits;
    assert (digits + rest)[..|digits|] == digits && (digits + rest)[|digits|..] == rest;
  }

  lemma IntRoundTrip(n: Int64, rest: string)
    requires rest == "" || !IsDigit(rest[0])
    ensures ParseInt(FormatInt(n) + rest) == Some((n, rest))
  {
    var digits := Decimal(Magnitude(n));
    DigitsRoundTrip(Magnitude(n), rest);
    if n < 0 {
      assert FormatInt(n) + rest == "-" + (digits + rest);
      assert ("-" + (digits + rest))[1..] == digits + rest;
    }
  }

  lemma TimeMember(c: SyncCursor, t: Time, rest: string)
    requires Marshalable(t)
    ensures ParseMember(UPDATED_AT + Format(t, "\"" + rest), c) == Some((c.(updatedAt := AsWritten(t)), rest))
  {
    ExpectLiteral(UPDATED_AT, Format(t, "\"" + rest));
    TimestampRoundTrip(t, "\"" + rest);
    ExpectLiteral("\"", rest);
  }

  lemma IdMember(c: SyncCursor, n: Int64, rest: string)
    requires rest == "" || !IsDigit(rest[0])
    ensures ParseMember(ID + (FormatInt(n) + rest), c) == Some((c.(id := n), rest))
  {
    var s := ID + (FormatInt(n) + rest);
    assert s[1] == 'i' && UPDATED_AT[1] == 'u' && NULL_UPDATED_AT[1] == 'u';
    assert Expect(s, UPDATED_AT) == None && Expect(s, NULL_UPDATED_AT) == None;
    hide Expect, ParseInt;
    ExpectLiteral(ID, FormatInt(n) + rest);
    IntRoundTrip(n, rest);
  }

  lemma TwoMembers(first: string, second: string, c0: SyncCursor, c1: SyncCursor, c2: SyncCursor)
    requires ParseMember(first, c0) == Some((c1, "," + second)) && |second| < |first|
    requires ParseMember(second, c1) == Some((c2, "}"))
    ensures ParseMembers(first, c0) == Some(c2)
  {
  }

  /** The cursor as it is written. */
  function Carried(c: SyncCursor): SyncCursor {
    c.(updatedAt := AsWritten(c.updatedAt))
  }

  lemma CarriedWhole(c: SyncCursor)
    ensures Carried(c) == c <==> WholeMinutes(c.updatedAt)
  {
    ZoneMinutesOf(c.updatedAt.offset);
  }

  lemma JsonRoundTrip(c: SyncCursor)
    requires Marshalable(c.updatedAt)
    ensures Unmarshal(Marshal(c)) == Some(Carried(c))
  {
    var zero := SyncCursor(ZERO_TIME, 0);
    var second := ID + (FormatInt(c.id) + "}");
    var first := UPDATED_AT + Format(c.updatedAt, "\"" + ("," + second));
    var half := zero.(updatedAt := AsWritten(c.updatedAt));
    ExpectLiteral(OPEN, first);
    TimeMember(zero, c.updatedAt, "," + second);
    IdMember(half, c.id, "}");
    assert ("," + second)[1..] == second;
    FormatLength(c.updatedAt, "\"" + ("," + second));
    TwoMembers(first, second, zero, half, Carried(c));
  }

  /** The decoder takes the two members in the other order too. */
  lemma EitherOrder(c: SyncCursor)
    requires Marshalable(c.updatedAt)
    ensures Unmarshal(OPEN + (ID + (FormatInt(c.id) + ("," + (UPDATED_AT + Format(c.updatedAt, "\"" + "}"))))))
            == Some(Carried(c))
  {
    var zero := SyncCursor(ZERO_TIME, 0);
    var second := UPDATED_AT + Format(c.updatedAt, "\"" + "}");
    var first := ID + (FormatInt(c.id) + ("," + second));
    var half := zero.(id := c.id);
    ExpectLiteral(OPEN, first);
    IdMember(zero, c.id, "," + second);
    TimeMember(half, c.updatedAt, "}");
    assert ("," + second)[1..] == second;
    TwoMembers(first, second, zero, half, Carried(c));
  }

  /** The text around the timestamp and the id, and the id in decimal without leading zeros. */
  lemma MarshalSpells(c: SyncCursor)
    requires Marshalable(c.updatedAt)
    ensures Marshal(c) == "{\"updatedAt\":\"" + Format(c.updatedAt, "\",\"id\":" + FormatInt(c.id) + "}")
    ensures var s, n: int := FormatInt(c.id), c.id;
            |s| >= 1 &&
            if n < 0 then |s| >= 2 && s[0] == '-' && Denotes(s[1..], -n) && s[1] != '0'
            else Denotes(s, n) && (s[0] == '0' ==> s == "0")
  {
    hide Format, Decimal, Value;
    DecimalValue(Magnitude(c.id));
    assert OPEN + (UPDATED_AT + Format(c.updatedAt, "\"" + ("," + (ID + (FormatInt(c.id) + "}")))))
           == OPEN + UPDATED_AT + Format(c.updatedAt, "\"" + ("," + (ID + (FormatInt(c.id) + "}"))));
    assert "\"" + ("," + (ID + (FormatInt(c.id) + "}"))) == "\",\"id\":" + FormatInt(c.id) + "}";
    assert c.id < 0 ==> FormatInt(c.id)[1..] == Decimal(Magnitude(c.id));
  }

  // ---- The JSON text is plain ASCII ----

  ghost predicate IsAscii(s: string) {
    forall i :: 0 <= i < |s| ==> s[i] < 128 as char
  }

  lemma {:induction false} PadIsAscii(n: nat, k: nat)
    ensures IsAscii(Pad(n, k))
  {
    if k != 0 {
      PadIsAscii(n / 10, k - 1);
    }
  }

  lemma JoinIsAscii(a: string, b: string)
    requires IsAscii(a) && IsAscii(b)
    ensures IsAscii(a + b)
  {
  }

  lemma ZoneIsAscii(offset: int, rest: string)
    requires -SECONDS_PER_DAY < offset < SECONDS_PER_DAY && IsAscii(rest)
    ensures IsAscii(FormatZone(offset, rest))
  {
    hide ZoneMinutes, Pad;
    ZoneMinutesOf(offset);
    var m := if ZoneMinutes(offset) < 0 then -ZoneMinutes(offset) else ZoneMinutes(offset);
    PadIsAscii(m / 60, 2);
    PadIsAscii(m % 60, 2);
    assert IsAscii(FormatHoursMinutes(m, rest));
  }

  lemma FractionIsAscii(nano: int, rest: string)
    requires 0 <= nano < NANOS_PER_SECOND && IsAscii(rest)
    ensures IsAscii(FormatFraction(nano, rest))
  {
    PadIsAscii(nano, 9);
    TrimZerosFills(Pad(nano, 9));
  }

  lemma FormatIsAscii(t: Time, rest: string)
    requires Marshalable(t) && IsAscii(rest)
    ensures IsAscii(Format(t, rest))
  {
    ZoneIsAscii(t.offset, rest);
    FractionIsAscii(t.nano, FormatZone(t.offset, rest));
    var tail := FormatFraction(t.nano, FormatZone(t.offset, rest));
    PadIsAscii(t.hour, 2);
    PadIsAscii(t.minute, 2);
    PadIsAscii(t.second, 2);
    assert IsAscii(FormatClock(t, tail));
    PadIsAscii(t.year, 4);
    PadIsAscii(t.month, 2);
    PadIsAscii(t.day, 2);
  }

  lemma {:induction false} DecimalIsAscii(n: nat)
    ensures IsAscii(Decimal(n))
  {
    if n >= 10 {
      DecimalIsAscii(n / 10);
    }
  }

  lemma MarshalIsAscii(c: SyncCursor)
    requires Marshalable(c.updatedAt)
    ensures IsAscii(Marshal(c))
  {
    DecimalIsAscii(Magnitude(c.id));
    var tail := "\"" + ("," + (ID + (FormatInt(c.id) + "}")));
    assert IsAscii(tail);
    FormatIsAscii(c.updatedAt, tail);
    JoinIsAscii(UPDATED_AT, Format(c.updatedAt, tail));
    JoinIsAscii(OPEN, UPDATED_AT + Format(c.updatedAt, tail));
  }

  // ---- The opaque string ----

  function Bytes(s: string): seq<int> {
    seq(|s|, i requires 0 <= i < |s| => s[i] as int)
  }

  function Text(b: seq<int>): string
    requires Base64Url.IsBytes(b)
  {
    seq(|b|, i requires 0 <= i < |b| => b[i] as char)
  }

  /** A cursor the marshaller refuses is encoded as nothing: its error is dropped. */
  function EncodeCursor(c: SyncCursor): string
  {
    if Marshalable(c.updatedAt) then
      MarshalIsAscii(c);
      Base64Url.Encode(Bytes(Marshal(c)))
    else Base64Url.Encode([])
  }

  function DecodeCursor(raw: string): Result<SyncCursor, CursorError> {
    match Base64Url.Decode(raw)
    case None => Err(InvalidCursor)
    case Some(b) =>
      match Unmarshal(Text(b))
        case None => Err(InvalidCursor)
        case Some(c) => if IsZero(c.updatedAt) then Err(InvalidCursor) else Ok(c)
  }

  lemma EncodedText(c: SyncCursor)
    requires Marshalable(c.updatedAt)
    ensures Base64Url.IsBytes(Bytes(Marshal(c))) && EncodeCursor(c) != ""
    ensures Base64Url.Decode(EncodeCursor(c)) == Some(Bytes(Marshal(c)))
    ensures Text(Bytes(Marshal(c))) == Marshal(c)
  {
    MarshalIsAscii(c);
    Base64Url.RoundTrip(Bytes(Marshal(c)));
  }

  lemma EmptyIsRefused()
    ensures Base64Url.Encode([]) == "" && DecodeCursor("") == Err(InvalidCursor)
  {
    Base64Url.RoundTrip([]);
  }

  /**
   * A cursor survives encoding exactly when its year has four digits, its offset is
   * below a day and in whole minutes, and it is not the zero instant.
   */
  lemma RoundTripIff(c: SyncCursor)
    ensures DecodeCursor(EncodeCursor(c)) == Ok(c)
            <==> Marshalable(c.updatedAt) && WholeMinutes(c.updatedAt) && !IsZero(c.updatedAt)
    ensures EncodeCursor(c) == "" <==> !Marshalable(c.updatedAt)
  {
    hide Marshal, Unmarshal, Carried, WholeMinutes, Instant;
    CarriedWhole(c);
    if Marshalable(c.updatedAt) {
      EncodedText(c);
      JsonRoundTrip(c);
    } else {
      EmptyIsRefused();
    }
  }

  /** Two cursors with one encoding are the same cursor, wall clock and minutes of the offset included. */
  lemma EncodeIsInjective(a: SyncCursor, b: SyncCursor)
    requires Marshalable(a.updatedAt)
    requires Marshalable(b.updatedAt)
    requires EncodeCursor(a) == EncodeCursor(b)
    ensures Carried(a) == Carried(b)
    ensures WholeMinutes(a.updatedAt) && WholeMinutes(b.updatedAt) ==> a == b
  {
    hide Marshal, Unmarshal, Carried, WholeMinutes, Marshalable, EncodeCursor;
    CarriedWhole(a);
    CarriedWhole(b);
    EncodedText(a);
    EncodedText(b);
    JsonRoundTrip(a);
    JsonRoundTrip(b);
  }

  lemma {:induction false} MembersAreParsable(s: string, c: SyncCursor)
    requires Parsable(c.updatedAt)
    ensures ParseMembers(s, c).Some? ==> Parsable(ParseMembers(s, c).value.updatedAt)
    decreases |s|
  {
    match ParseMember(s, c) {
      case None =>
      case Some((c', rest)) =>
        if rest != "" && |rest| <= |s| {
          MembersAreParsable(rest[1..], c');
        }
    }
  }

  /**
   * Whatever the decoder accepts is a real, non-zero instant in a year of four
   * digits; it survives being encoded again if and only if its offset is below a
   * day, which the parser does not insist on.
   */
  lemma AcceptedCursor(raw: string)
    ensures var r := DecodeCursor(raw);
            r.Ok? ==>
              && Parsable(r.value.updatedAt) && !IsZero(r.value.updatedAt)
              && (DecodeCursor(EncodeCursor(r.value)) == r
                  <==> -SECONDS_PER_DAY < r.value.updatedAt.offset < SECONDS_PER_DAY)
  {
    match Base64Url.Decode(raw) {
      case None =>
      case Some(b) =>
        var s := Text(b);
        if Expect(s, OPEN).Some? {
          MembersAreParsable(Expect(s, OPEN).value, SyncCursor(ZERO_TIME, 0));
        }
    }
    var r := DecodeCursor(raw);
    if r.Ok? {
      RoundTripIff(r.value);
    }
  }
}
