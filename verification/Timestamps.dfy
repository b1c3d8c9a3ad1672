/**
 * Civil timestamps and their RFC 3339 spelling, as the cursor's JSON carries
 * them (section 5.6 of RFC 3339).  Every parser takes the text still to be read
 * and returns the value with what is left.
 */
module Timestamps {
  import opened Wrappers

  const SECONDS_PER_DAY := 86400
  const NANOS_PER_SECOND := 1_000_000_000

  /** A wall clock reading at an offset, in seconds, from UTC. */
  datatype Timestamp = Timestamp(year: int, month: int, day: int,
                                 hour: int, minute: int, second: int, nano: int, offset: int)

  predicate IsLeap(year: int) {
    year % 4 == 0 && (year % 100 != 0 || year % 400 == 0)
  }

  function DaysIn(year: int, month: int): int {
    if month == 2 then (if IsLeap(year) then 29 else 28)
    else if month in {4, 6, 9, 11} then 30 else 31
  }

  predicate ValidTime(t: Timestamp) {
    && 1 <= t.month <= 12 && 1 <= t.day <= DaysIn(t.year, t.month)
    && 0 <= t.hour < 24 && 0 <= t.minute < 60 && 0 <= t.second < 60
    && 0 <= t.nano < NANOS_PER_SECOND
  }

  const ZERO_TIME := Timestamp(1, 1, 1, 0, 0, 0, 0, 0)

  /** A time.Time: always a real calendar date and clock reading. */
  type Time = t: Timestamp | ValidTime(t) witness ZERO_TIME

  /** What the marshaller accepts: a four digit year and an offset below a day. */
  predicate Marshalable(t: Time) {
    0 <= t.year <= 9999 && -SECONDS_PER_DAY < t.offset < SECONDS_PER_DAY
  }

  predicate WholeMinutes(t: Time) {
    t.offset % 60 == 0
  }

  /** What the parser can yield: whole minutes up to 24:60 either way. */
  predicate Parsable(t: Time) {
    0 <= t.year <= 9999 && WholeMinutes(t) && -(SECONDS_PER_DAY + 3600) <= t.offset <= SECONDS_PER_DAY + 3600
  }

  /** The whole minutes of an offset, its seconds cut off towards zero. */
  function ZoneMinutes(offset: int): int {
    if offset < 0 then -(-offset / 60) else offset / 60
  }

  /** What is left of a time once it has been written: the reading, without the seconds of its offset. */
  function AsWritten(t: Time): Time {
    t.(offset := 60 * ZoneMinutes(t.offset))
  }

  function DaysBeforeYear(year: int): int {
    365 * year + (year + 3) / 4 - (year + 99) / 100 + (year + 399) / 400
  }

  function DaysBeforeMonth(year: int, month: int): int
    decreases month
  {
    if month <= 1 then 0 else DaysBeforeMonth(year, month - 1) + DaysIn(year, month - 1)
  }

  /** Nanoseconds since the start of year 0 in UTC: what two timestamps are compared by. */
  function Instant(t: Time): int {
    var minutes := ((DaysBeforeYear(t.year) + DaysBeforeMonth(t.year, t.month) + t.day - 1) * 24 + t.hour) * 60
                   + t.minute;
    (minutes * 60 + t.second - t.offset) * NANOS_PER_SECOND + t.nano
  }

  /** The zero instant, whatever offset it is read at. */
  predicate IsZero(t: Time) {
    Instant(t) == Instant(ZERO_TIME)
  }

  // ---- What an instant is ----

  /** The earlier calendar date and clock reading, field by field from the year down. */
  predicate Earlier(a: Time, b: Time) {
    || a.year < b.year
    || (a.year == b.year && a.month < b.month)
    || (a.year == b.year && a.month == b.month && a.day < b.day)
    || (SameDate(a, b) && a.hour < b.hour)
    || (SameDate(a, b) && a.hour == b.hour && a.minute < b.minute)
    || (SameDate(a, b) && a.hour == b.hour && a.minute == b.minute && a.second < b.second)
    || (SameDate(a, b) && a.hour == b.hour && a.minute == b.minute && a.second == b.second && a.nano < b.nano)
  }

  predicate SameDate(a: Time, b: Time) {
    a.year == b.year && a.month == b.month && a.day == b.day
  }

  /** The same clock reading on the next calendar day. */
  function NextDay(t: Time): Time {
    if t.day < DaysIn(t.year, t.month) then t.(day := t.day + 1)
    else if t.month < 12 then t.(month := t.month + 1, day := 1)
    else t.(year := t.year + 1, month := 1, day := 1)
  }

  const MONTHS := [31, 28, 31, 30, 31, 30, 31, 31, 30, 31, 30, 31]

  /** The Gregorian calendar: its months, its leap years, and 146097 days in any 400 years. */
  lemma Calendar(year: int, month: int)
    requires 1 <= month <= 12
    ensures IsLeap(year) <==> year % 4 == 0 && !(year % 100 == 0 && year % 400 != 0)
    ensures DaysIn(year, month) == MONTHS[month - 1] + if month == 2 && IsLeap(year) then 1 else 0
    ensures DaysBeforeYear(year + 400) == DaysBeforeYear(year) + 146097
  {
    FourCenturies(year);
    hide DaysBeforeYear;
  }

  lemma FourCenturies(year: int)
    ensures DaysBeforeYear(year + 400) == DaysBeforeYear(year) + 146097
  {
    assert (year + 400 + 3) / 4 == (year + 3) / 4 + 100;
    assert (year + 400 + 99) / 100 == (year + 99) / 100 + 4;
    assert (year + 400 + 399) / 400 == (year + 399) / 400 + 1;
  }

  lemma YearLength(year: int)
    ensures DaysBeforeYear(year + 1) == DaysBeforeYear(year) + if IsLeap(year) then 366 else 365
    ensures DaysBeforeMonth(year, 13) == if IsLeap(year) then 366 else 365
  {
    hide IsLeap, DaysBeforeYear;
    LeapDay(year);
    var m3 := DaysBeforeMonth(year, 3);
    assert DaysBeforeMonth(year, 6) == m3 + 92;
    assert DaysBeforeMonth(year, 8) == m3 + 153;
    assert DaysBeforeMonth(year, 11) == m3 + 245;
    assert DaysBeforeMonth(year, 13) == m3 + 306;
  }

  lemma LeapDay(year: int)
    ensures DaysBeforeYear(year + 1) == DaysBeforeYear(year) + if IsLeap(year) then 366 else 365
  {
    EveryFourth(year);
    EveryHundredth(year);
    EveryFourHundredth(year);
  }

  lemma EveryFourth(year: int)
    ensures (year + 1 + 3) / 4 == (year + 3) / 4 + if year % 4 == 0 then 1 else 0
  {
  }

  lemma EveryHundredth(year: int)
    ensures (year + 1 + 99) / 100 == (year + 99) / 100 + if year % 100 == 0 then 1 else 0
    ensures year % 100 == 0 ==> year % 4 == 0
  {
    assert year == 4 * (25 * (year / 100)) + year % 100;
  }

  lemma EveryFourHundredth(year: int)
    ensures (year + 1 + 399) / 400 == (year + 399) / 400 + if year % 400 == 0 then 1 else 0
    ensures year % 400 == 0 ==> year % 100 == 0
  {
    assert year == 100 * (4 * (year / 400)) + year % 400;
  }

  lemma {:induction false} YearsRise(year: int, later: int)
    requires year < later
    ensures DaysBeforeYear(year + 1) <= DaysBeforeYear(later)
    decreases later - year
  {
    if year + 1 < later {
      YearsRise(year, later - 1);
      YearLength(later - 1);
    }
  }

  lemma {:induction false} MonthsRise(year: int, month: int, later: int)
    requires 1 <= month < later <= 13
    ensures DaysBeforeMonth(year, month) + DaysIn(year, month) <= DaysBeforeMonth(year, later)
    decreases later - month
  {
    if month + 1 < later {
      MonthsRise(year, month, later - 1);
    }
  }

  function DayNumber(t: Time): int {
    DaysBeforeYear(t.year) + DaysBeforeMonth(t.year, t.month) + t.day - 1
  }

  lemma {:induction false} MonthsArePositive(year: int, month: int)
    ensures DaysBeforeMonth(year, month) >= 0
    decreases month
  {
    if month > 1 {
      MonthsArePositive(year, month - 1);
    }
  }

  /** Days are numbered in the order of their dates. */
  lemma DaysRise(a: Time, b: Time)
    requires a.year < b.year || (a.year == b.year && (a.month < b.month || (a.month == b.month && a.day < b.day)))
    ensures DayNumber(a) < DayNumber(b)
  {
    hide DaysBeforeYear, DaysBeforeMonth, DaysIn;
    MonthsArePositive(b.year, b.month);
    if a.year < b.year {
      YearsRise(a.year, b.year);
      YearLength(a.year);
      MonthsRise(a.year, a.month, 13);
    } else if a.month < b.month {
      MonthsRise(a.year, a.month, b.month);
    }
  }

  lemma SameDay(a: Time, b: Time)
    requires SameDate(a, b)
    ensures DayNumber(a) == DayNumber(b)
  {
  }

  lemma InstantOf(t: Time)
    ensures Instant(t)
            == (DayNumber(t) * 86400 + (t.hour * 3600 + t.minute * 60 + t.second - t.offset)) * NANOS_PER_SECOND
               + t.nano
  {
  }

  lemma EarlierIsLess(a: Time, b: Time)
    requires a.offset == b.offset && Earlier(a, b)
    ensures Instant(a) < Instant(b)
  {
    hide DayNumber, Instant;
    InstantOf(a);
    InstantOf(b);
    if SameDate(a, b) {
      SameDay(a, b);
    } else {
      DaysRise(a, b);
    }
  }

  /** At one offset, instants are ordered as dates and clock readings are. */
  lemma InstantOrders(a: Time, b: Time)
    requires a.offset == b.offset
    ensures Instant(a) < Instant(b) <==> Earlier(a, b)
    ensures Instant(a) == Instant(b) <==> a == b
  {
    hide Instant;
    if Earlier(a, b) {
      EarlierIsLess(a, b);
    } else if a != b {
      EarlierIsLess(b, a);
    }
  }

  /** Moving the offset moves the instant the other way, and the clock and the calendar run in seconds and days. */
  lemma InstantMoves(t: Time, d: int)
    ensures Instant(t.(offset := t.offset + d)) == Instant(t) - d * NANOS_PER_SECOND
    ensures Instant(NextDay(t)) == Instant(t) + SECONDS_PER_DAY * NANOS_PER_SECOND
    ensures t.hour < 23 ==> Instant(t.(hour := t.hour + 1)) == Instant(t) + 3600 * NANOS_PER_SECOND
    ensures t.minute < 59 ==> Instant(t.(minute := t.minute + 1)) == Instant(t) + 60 * NANOS_PER_SECOND
    ensures t.second < 59 ==> Instant(t.(second := t.second + 1)) == Instant(t) + NANOS_PER_SECOND
  {
    NextDayNumber(t);
    hide DayNumber, Instant, NextDay;
    InstantOf(t);
    InstantOf(t.(offset := t.offset + d));
    InstantOf(NextDay(t));
    SameDay(t, t.(offset := t.offset + d));
    if t.hour < 23 {
      InstantOf(t.(hour := t.hour + 1));
      SameDay(t, t.(hour := t.hour + 1));
    }
    if t.minute < 59 {
      InstantOf(t.(minute := t.minute + 1));
      SameDay(t, t.(minute := t.minute + 1));
    }
    if t.second < 59 {
      InstantOf(t.(second := t.second + 1));
      SameDay(t, t.(second := t.second + 1));
    }
  }

  lemma NextDayNumber(t: Time)
    ensures DayNumber(NextDay(t)) == DayNumber(t) + 1
    ensures var n := NextDay(t);
            n.hour == t.hour && n.minute == t.minute && n.second == t.second && n.nano == t.nano && n.offset == t.offset
  {
    YearLength(t.year);
  }

  // ---- Decimal digits ----

  function Digit(n: int): char
    requires 0 <= n < 10
  {
    '0' + n as char
  }

  predicate IsDigit(c: char) {
    '0' <= c <= '9'
  }

  ghost predicate AllDigits(s: string) {
    forall c :: c in s ==> IsDigit(c)
  }

  function Pow10(k: nat): nat {
    if k == 0 then 1 else 10 * Pow10(k - 1)
  }

  /** n in exactly k digits. */
  function Pad(n: nat, k: nat): string {
    if k == 0 then "" else Pad(n / 10, k - 1) + [Digit(n % 10)]
  }

  /** n in as few digits as it takes. */
  function Decimal(n: nat): string {
    if n < 10 then [Digit(n)] else Decimal(n / 10) + [Digit(n % 10)]
  }

  /** Length of the run of digits s starts with. */
  function DigitRun(s: string): (k: nat)
    ensures k <= |s|
    ensures forall i :: 0 <= i < k ==> IsDigit(s[i])
    ensures k < |s| ==> !IsDigit(s[k])
  {
    if s == "" || !IsDigit(s[0]) then 0 else 1 + DigitRun(s[1..])
  }

  function Value(s: string): nat
    requires forall i :: 0 <= i < |s| ==> IsDigit(s[i])
  {
    if s == "" then 0
    else
      assert IsDigit(s[|s| - 1]);
      10 * Value(s[..|s| - 1]) + (s[|s| - 1] as int - '0' as int)
  }

  lemma {:induction false} PadValue(n: nat, k: nat)
    requires n < Pow10(k)
    ensures |Pad(n, k)| == k && AllDigits(Pad(n, k)) && Value(Pad(n, k)) == n
  {
    if k != 0 {
      PadValue(n / 10, k - 1);
      assert Pad(n, k)[..k - 1] == Pad(n / 10, k - 1);
    }
  }

  lemma {:induction false} DecimalValue(n: nat)
    ensures var s := Decimal(n);
            s != "" && AllDigits(s) && Value(s) == n && (s[0] == '0' ==> n == 0 && |s| == 1)
  {
    if n < 10 {
      assert Decimal(n)[..0] == "";
    } else {
      DecimalValue(n / 10);
      assert Decimal(n)[..|Decimal(n)| - 1] == Decimal(n / 10);
    }
  }

  lemma {:induction false} DigitRunOf(digits: string, rest: string)
    requires AllDigits(digits)
    requires rest == "" || !IsDigit(rest[0])
    ensures DigitRun(digits + rest) == |digits|
  {
    if digits == "" {
      assert digits + rest == rest;
    } else {
      assert forall c :: c in digits[1..] ==> c in digits;
      DigitRunOf(digits[1..], rest);
      assert (digits + rest)[1..] == digits[1..] + rest;
    }
  }

  // ---- Pieces of text ----

  /** A literal. */
  function Expect(s: string, lit: string): Option<string> {
    if lit <= s then Some(s[|lit|..]) else None
  }

  /** Exactly k digits, denoting a number in [lo, hi]. */
  function Number(s: string, k: nat, lo: int, hi: int): Option<(int, string)> {
    if k <= |s| && k <= DigitRun(s) && lo <= Value(s[..k]) <= hi then Some((Value(s[..k]), s[k..])) else None
  }

  /** A number and the separator after it. */
  function Field(s: string, k: nat, lo: int, hi: int, sep: string): Option<(int, string)> {
    match Number(s, k, lo, hi)
    case None => None
    case Some((n, s1)) =>
      match Expect(s1, sep)
      case None => None
      case Some(s2) => Some((n, s2))
  }

  lemma ExpectLiteral(lit: string, rest: string)
    ensures Expect(lit + rest, lit) == Some(rest)
  {
  }

  lemma NumberPad(n: nat, k: nat, lo: int, hi: int, rest: string)
    requires n < Pow10(k) && lo <= n <= hi
    ensures Number(Pad(n, k) + rest, k, lo, hi) == Some((n, rest))
  {
    PadValue(n, k);
    var s := Pad(n, k) + rest;
    assert s[..k] == Pad(n, k) && s[k..] == rest;
    assert forall i :: 0 <= i < k ==> s[i] == Pad(n, k)[i] && Pad(n, k)[i] in Pad(n, k);
  }

  lemma FieldPad(n: nat, k: nat, lo: int, hi: int, sep: string, rest: string)
    requires n < Pow10(k) && lo <= n <= hi
    ensures Field(Pad(n, k) + (sep + rest), k, lo, hi, sep) == Some((n, rest))
  {
    NumberPad(n, k, lo, hi, sep + rest);
    ExpectLiteral(sep, rest);
  }

  // ---- Fraction of a second ----

  function TrimZeros(s: string): string {
    if s != "" && s[|s| - 1] == '0' then TrimZeros(s[..|s| - 1]) else s
  }

  function Zeros(k: nat): string {
    seq(k, _ => '0')
  }

  /** The first nine digits of a fraction, filled up with zeros on the right. */
  function NineDigits(s: string): (r: string)
    requires forall i :: 0 <= i < |s| ==> IsDigit(s[i])
    ensures forall i :: 0 <= i < |r| ==> IsDigit(r[i])
  {
    if 9 <= |s| then s[..9] else s + Zeros(9 - |s|)
  }

  /** The fraction, if there is one, written in front of rest. */
  function FormatFraction(nano: int, rest: string): string
    requires 0 <= nano < NANOS_PER_SECOND
  {
    if nano == 0 then rest else "." + (TrimZeros(Pad(nano, 9)) + rest)
  }

  /** Go's parser takes a comma for the point. */
  function ParseFraction(s: string): (int, string) {
    if |s| >= 2 && (s[0] == '.' || s[0] == ',') && IsDigit(s[1]) then
      var k := DigitRun(s[1..]);
      (Value(NineDigits(s[1..][..k])), s[1..][k..])
    else (0, s)
  }

  lemma {:induction false} TrimZerosFills(s: string)
    ensures TrimZeros(s) <= s && s == TrimZeros(s) + Zeros(|s| - |TrimZeros(s)|)
  {
    if s != "" && s[|s| - 1] == '0' {
      TrimZerosFills(s[..|s| - 1]);
    }
  }

  lemma {:induction false} ValueOfZeros(k: nat)
    ensures Value(Zeros(k)) == 0
  {
    if k != 0 {
      ValueOfZeros(k - 1);
      assert Zeros(k)[..k - 1] == Zeros(k - 1);
    }
  }

  lemma NineDigitNumbers()
    ensures Pow10(2) == 100 && Pow10(4) == 10_000 && Pow10(9) == NANOS_PER_SECOND
  {
  }

  /** Trimming the nine digits of a non-zero fraction leaves digits that fill up to the same number. */
  lemma TrimmedFraction(nano: int)
    requires 0 < nano < NANOS_PER_SECOND
    ensures var t := TrimZeros(Pad(nano, 9));
            t != "" && AllDigits(t) && NineDigits(t) == Pad(nano, 9) && Value(Pad(nano, 9)) == nano
  {
    NineDigitNumbers();
    PadValue(nano, 9);
    TrimZerosFills(Pad(nano, 9));
    ValueOfZeros(9);
    var t := TrimZeros(Pad(nano, 9));
    assert forall c :: c in t ==> c in Pad(nano, 9);
    assert "" + Zeros(9) == Zeros(9);
  }

  lemma ParseDigitsOfFraction(t: string, rest: string)
    requires t != "" && AllDigits(t)
    requires rest != "" && !IsDigit(rest[0])
    ensures ParseFraction("." + (t + rest)) == (Value(NineDigits(t)), rest)
  {
    var s := "." + (t + rest);
    assert s[1..] == t + rest;
    DigitRunOf(t, rest);
    assert s[1] == t[0] && t[0] in t;
    assert (t + rest)[..|t|] == t && (t + rest)[|t|..] == rest;
  }

  lemma FractionRoundTrip(nano: int, rest: string)
    requires 0 <= nano < NANOS_PER_SECOND
    requires rest != "" && rest[0] != '.' && rest[0] != ',' && !IsDigit(rest[0])
    ensures ParseFraction(FormatFraction(nano, rest)) == (nano, rest)
  {
    if nano != 0 {
      TrimmedFraction(nano);
      ParseDigitsOfFraction(TrimZeros(Pad(nano, 9)), rest);
    }
  }

  // ---- Zone ----

  /** The spelling of an offset, written in front of rest. */
  function FormatZone(offset: int, rest: string): string
    requires -SECONDS_PER_DAY < offset < SECONDS_PER_DAY
  {
    var zone := ZoneMinutes(offset);
    if offset == 0 then "Z" + rest
    else if zone < 0 then "-" + FormatHoursMinutes(-zone, rest)
    else "+" + FormatHoursMinutes(zone, rest)
  }

  function FormatHoursMinutes(minutes: nat, rest: string): string {
    Pad(minutes / 60, 2) + (":" + (Pad(minutes % 60, 2) + rest))
  }

  /** Go's parser lets an offset run up to 24:60. */
  function ParseHoursMinutes(s: string): Option<(int, string)> {
    match Field(s, 2, 0, 24, ":")
    case None => None
    case Some((hours, s1)) =>
      match Number(s1, 2, 0, 60)
      case None => None
      case Some((minutes, s2)) => Some((hours * 60 + minutes, s2))
  }

  function ParseZone(s: string): Option<(int, string)> {
    if s != "" && s[0] == 'Z' then Some((0, s[1..]))
    else if s == "" || (s[0] != '+' && s[0] != '-') then None
    else match ParseHoursMinutes(s[1..])
      case None => None
      case Some((minutes, s1)) => Some((if s[0] == '+' then 60 * minutes else -60 * minutes, s1))
  }

  lemma HoursAndMinutes(hours: nat, minutes: nat, rest: string)
    requires hours <= 24 && minutes <= 60
    ensures ParseHoursMinutes(Pad(hours, 2) + (":" + (Pad(minutes, 2) + rest))) == Some((hours * 60 + minutes, rest))
  {
    NineDigitNumbers();
    NumberPad(minutes, 2, 0, 60, rest);
    FieldPad(hours, 2, 0, 24, ":", Pad(minutes, 2) + rest);
  }

  lemma HoursMinutesRoundTrip(minutes: nat, rest: string)
    requires minutes < 24 * 60
    ensures ParseHoursMinutes(FormatHoursMinutes(minutes, rest)) == Some((minutes, rest))
  {
    HoursAndMinutes(minutes / 60, minutes % 60, rest);
  }

  lemma ZoneMinutesOf(offset: int)
    ensures 60 * ZoneMinutes(offset) == offset <==> offset % 60 == 0
    ensures -SECONDS_PER_DAY < offset < SECONDS_PER_DAY ==> -24 * 60 < ZoneMinutes(offset) < 24 * 60
    ensures -(SECONDS_PER_DAY + 3600) <= offset <= SECONDS_PER_DAY + 3600 ==>
              -25 * 60 <= ZoneMinutes(offset) <= 25 * 60
  {
  }

  lemma SignedZone(minus: bool, spelling: string, minutes: int, rest: string)
    requires ParseHoursMinutes(spelling) == Some((minutes, rest))
    ensures ParseZone((if minus then "-" else "+") + spelling)
            == Some((if minus then -60 * minutes else 60 * minutes, rest))
  {
    hide ParseHoursMinutes;
    assert ((if minus then "-" else "+") + spelling)[1..] == spelling;
  }

  /** A spelling of any offset up to 24:60, which is read back. */
  lemma FarZone(offset: int, rest: string) returns (zone: string)
    requires offset % 60 == 0 && -(SECONDS_PER_DAY + 3600) <= offset <= SECONDS_PER_DAY + 3600
    ensures ParseZone(zone) == Some((offset, rest)) && zone != "" && zone[0] in {'+', '-'}
  {
    hide ParseZone, ParseHoursMinutes, ZoneMinutes, Pad;
    ZoneMinutesOf(offset);
    var m := if ZoneMinutes(offset) < 0 then -ZoneMinutes(offset) else ZoneMinutes(offset);
    var hours := if m < 24 * 60 then m / 60 else 24;
    var spelling := Pad(hours, 2) + (":" + (Pad(m - 60 * hours, 2) + rest));
    HoursAndMinutes(hours, m - 60 * hours, rest);
    SignedZone(ZoneMinutes(offset) < 0, spelling, m, rest);
    zone := (if ZoneMinutes(offset) < 0 then "-" else "+") + spelling;
  }

  lemma ZoneRoundTrip(offset: int, rest: string)
    requires -SECONDS_PER_DAY < offset < SECONDS_PER_DAY
    ensures ParseZone(FormatZone(offset, rest)) == Some((60 * ZoneMinutes(offset), rest))
    ensures FormatZone(offset, rest)[0] in {'Z', '+', '-'}
  {
    if offset == 0 {
      assert ("Z" + rest)[1..] == rest;
    } else {
      WrittenZone(offset, rest);
    }
  }

  lemma WrittenZone(offset: int, rest: string)
    requires -SECONDS_PER_DAY < offset < SECONDS_PER_DAY && offset != 0
    ensures ParseZone(FormatZone(offset, rest)) == Some((60 * ZoneMinutes(offset), rest))
    ensures FormatZone(offset, rest)[0] in {'+', '-'}
  {
    hide ParseZone, ParseHoursMinutes, ZoneMinutes, FormatHoursMinutes;
    ZoneMinutesOf(offset);
    var m := if ZoneMinutes(offset) < 0 then -ZoneMinutes(offset) else ZoneMinutes(offset);
    HoursMinutesRoundTrip(m, rest);
    SignedZone(ZoneMinutes(offset) < 0, FormatHoursMinutes(m, rest), m, rest);
  }

  // ---- The whole timestamp ----

  function FormatDate(t: Time, rest: string): string
    requires Marshalable(t)
  {
    Pad(t.year, 4) + ("-" + (Pad(t.month, 2) + ("-" + (Pad(t.day, 2) + ("T" + rest)))))
  }

  function FormatClock(t: Time, rest: string): string
  {
    Pad(t.hour, 2) + (":" + (Pad(t.minute, 2) + (":" + (Pad(t.second, 2) + rest))))
  }

  /** The timestamp written in front of rest. */
  function Format(t: Time, rest: string): string
    requires Marshalable(t)
  {
    FormatDate(t, FormatClock(t, FormatFraction(t.nano, FormatZone(t.offset, rest))))
  }

  lemma FormatLength(t: Time, rest: string)
    requires Marshalable(t)
    ensures |Format(t, rest)| >= |rest|
  {
  }

  function ParseDate(s: string): Option<(int, int, int, string)> {
    match Field(s, 4, 0, 9999, "-")
    case None => None
    case Some((year, s1)) =>
      match Field(s1, 2, 1, 12, "-")
      case None => None
      case Some((month, s2)) =>
        match Field(s2, 2, 1, DaysIn(year, month), "T")
        case None => None
        case Some((day, s3)) => Some((year, month, day, s3))
  }

  /** Go's parser takes an hour of one digit. */
  function ParseClock(s: string): Option<(int, int, int, string)> {
    match Field(s, if DigitRun(s) == 1 then 1 else 2, 0, 23, ":")
    case None => None
    case Some((hour, s1)) =>
      match Field(s1, 2, 0, 59, ":")
      case None => None
      case Some((minute, s2)) =>
        match Number(s2, 2, 0, 59)
        case None => None
        case Some((second, s3)) => Some((hour, minute, second, s3))
  }

  lemma {:induction false} ValueBound(s: string)
    requires forall i :: 0 <= i < |s| ==> IsDigit(s[i])
    ensures Value(s) < Pow10(|s|)
  {
    if s != "" {
      ValueBound(s[..|s| - 1]);
    }
  }

  lemma FractionBound(s: string)
    ensures 0 <= ParseFraction(s).0 < NANOS_PER_SECOND
  {
    NineDigitNumbers();
    if |s| >= 2 && (s[0] == '.' || s[0] == ',') && IsDigit(s[1]) {
      ValueBound(NineDigits(s[1..][..DigitRun(s[1..])]));
    }
  }

  lemma ZoneBound(s: string)
    ensures ParseZone(s).Some? ==>
              && ParseZone(s).value.0 % 60 == 0
              && -(SECONDS_PER_DAY + 3600) <= ParseZone(s).value.0 <= SECONDS_PER_DAY + 3600
  {
  }

  lemma DateBound(s: string)
    ensures ParseDate(s).Some? ==>
              var (year, month, day, _) := ParseDate(s).value;
              0 <= year <= 9999 && 1 <= month <= 12 && 1 <= day <= DaysIn(year, month)
  {
  }

  lemma ClockBound(s: string)
    ensures ParseClock(s).Some? ==>
              var (hour, minute, second, _) := ParseClock(s).value;
              0 <= hour < 24 && 0 <= minute < 60 && 0 <= second < 60
  {
  }

  /** Only calendar dates and clock readings are accepted. */
  function ParseLocal(s: string): (r: Option<(Time, string)>)
    ensures r.Some? ==> Marshalable(r.value.0)
  {
    match ParseDate(s)
    case None => None
    case Some((year, month, day, s1)) =>
      match ParseClock(s1)
      case None => None
      case Some((hour, minute, second, s2)) =>
        DateBound(s);
        ClockBound(s1);
        Some((Timestamp(year, month, day, hour, minute, second, 0, 0), s2))
  }

  function Parse(s: string): (r: Option<(Time, string)>)
    ensures r.Some? ==> Parsable(r.value.0)
  {
    match ParseLocal(s)
    case None => None
    case Some((t, s2)) => ParseRest(t, s2)
  }

  /** The fraction and the zone, put into the time read before them. */
  function ParseRest(t: Time, s: string): (r: Option<(Time, string)>)
    requires 0 <= t.year <= 9999
    ensures r.Some? ==> Parsable(r.value.0)
  {
    var (nano, s3) := ParseFraction(s);
    match ParseZone(s3)
    case None => None
    case Some((offset, s4)) =>
      FractionBound(s);
      ZoneBound(s3);
      Some((t.(nano := nano, offset := offset), s4))
  }

  lemma DateRoundTrip(t: Time, rest: string)
    requires Marshalable(t)
    ensures ParseDate(FormatDate(t, rest)) == Some((t.year, t.month, t.day, rest))
  {
    NineDigitNumbers();
    FieldPad(t.day, 2, 1, DaysIn(t.year, t.month), "T", rest);
    FieldPad(t.month, 2, 1, 12, "-", Pad(t.day, 2) + ("T" + rest));
    FieldPad(t.year, 4, 0, 9999, "-", Pad(t.month, 2) + ("-" + (Pad(t.day, 2) + ("T" + rest))));
  }

  lemma ClockRoundTrip(t: Time, rest: string)
    ensures ParseClock(FormatClock(t, rest)) == Some((t.hour, t.minute, t.second, rest))
  {
    NineDigitNumbers();
    NumberPad(t.second, 2, 0, 59, rest);
    FieldPad(t.minute, 2, 0, 59, ":", Pad(t.second, 2) + rest);
    FieldPad(t.hour, 2, 0, 23, ":", Pad(t.minute, 2) + (":" + (Pad(t.second, 2) + rest)));
  }

  lemma LocalRoundTrip(t: Time, rest: string)
    requires Marshalable(t)
    ensures ParseLocal(FormatDate(t, FormatClock(t, rest))) == Some((t.(nano := 0, offset := 0), rest))
  {
    hide ParseDate, ParseClock, FormatDate, FormatClock;
    ClockRoundTrip(t, rest);
    DateRoundTrip(t, FormatClock(t, rest));
  }

  /**
   * Whatever follows it, a formatted timestamp reads back with its clock reading, its
   * nanoseconds and the whole minutes of its offset.
   */
  lemma TimestampRoundTrip(t: Time, rest: string)
    requires Marshalable(t)
    ensures Parse(Format(t, rest)) == Some((AsWritten(t), rest))
  {
    hide ParseLocal, FormatDate, FormatClock, ParseFraction, FormatFraction, ParseZone;
    var zone := FormatZone(t.offset, rest);
    ZoneRoundTrip(t.offset, rest);
    FractionRoundTrip(t.nano, zone);
    LocalRoundTrip(t, FormatFraction(t.nano, zone));
  }

  lemma ReadBack(t: Time, rest: string) returns (s: string)
    requires Parsable(t)
    ensures Parse(s) == Some((t, rest))
  {
    hide ParseLocal, FormatDate, FormatClock, ParseFraction, FormatFraction, ParseZone;
    var zone := FarZone(t.offset, rest);
    var utc := t.(offset := 0);
    FractionRoundTrip(t.nano, zone);
    LocalRoundTrip(utc, FormatFraction(t.nano, zone));
    s := FormatDate(utc, FormatClock(utc, FormatFraction(t.nano, zone)));
  }

  /**
   * What the parser can yield, exactly; so the times that it reads and the
   * marshaller refuses to write are those whose offset is a day or more.
   */
  lemma ReadIffParsable(t: Time, rest: string)
    ensures (exists s :: Parse(s) == Some((t, rest))) <==> Parsable(t)
    ensures (exists s :: Parse(s) == Some((t, rest))) && !Marshalable(t)
            <==> Parsable(t) && (t.offset <= -SECONDS_PER_DAY || SECONDS_PER_DAY <= t.offset)
  {
    if Parsable(t) {
      var s := ReadBack(t, rest);
    }
  }

  // ---- What is written ----

  const DIGITS := "0123456789"

  /** Digits are the ten figures, and a numeral is read from the left, each figure counting ten times the next. */
  lemma NumeralsMean(s: string, d: int)
    requires AllDigits(s) && 0 <= d < 10
    ensures Digit(d) == DIGITS[d] && AllDigits(s + [DIGITS[d]])
    ensures Value("") == 0 && Value(s + [DIGITS[d]]) == 10 * Value(s) + d
  {
    assert (s + [DIGITS[d]])[..|s|] == s;
  }

  /** s is the numeral of n. */
  ghost predicate Denotes(s: string, n: int) {
    AllDigits(s) && Value(s) == n
  }

  lemma {:induction false} ValueShifts(s: string, k: nat)
    requires AllDigits(s)
    ensures AllDigits(s + Zeros(k)) && Value(s + Zeros(k)) == Value(s) * Pow10(k)
  {
    hide Value, IsDigit;
    if k == 0 {
      assert s + Zeros(0) == s;
    } else {
      ValueShifts(s, k - 1);
      assert Value(s) * Pow10(k) == 10 * (Value(s) * Pow10(k - 1));
      assert s + Zeros(k) == s + Zeros(k - 1) + [DIGITS[0]];
      NumeralsMean(s + Zeros(k - 1), 0);
    }
  }

  /** Nothing for a whole second; else a point and up to nine digits, the last of them not a zero. */
  lemma FractionSpells(nano: int, rest: string) returns (digits: string)
    requires 0 <= nano < NANOS_PER_SECOND
    ensures nano == 0 ==> FormatFraction(nano, rest) == rest
    ensures nano != 0 ==>
              && FormatFraction(nano, rest) == "." + digits + rest
              && 1 <= |digits| <= 9 && AllDigits(digits) && digits[|digits| - 1] != '0'
              && Value(digits) * Pow10(9 - |digits|) == nano
  {
    digits := TrimZeros(Pad(nano, 9));
    if nano != 0 {
      TrimmedFraction(nano);
      TrimZerosFills(Pad(nano, 9));
      NoTrailingZero(Pad(nano, 9));
      hide TrimZeros, Pad;
      NineDigitNumbers();
      PadValue(nano, 9);
      ValueShifts(digits, 9 - |digits|);
    }
  }

  lemma {:induction false} NoTrailingZero(s: string)
    ensures TrimZeros(s) != "" ==> TrimZeros(s)[|TrimZeros(s)| - 1] != '0'
  {
    if s != "" && s[|s| - 1] == '0' {
      NoTrailingZero(s[..|s| - 1]);
    }
  }

  lemma PadDenotes(n: nat, k: nat)
    requires n < Pow10(k)
    ensures |Pad(n, k)| == k && Denotes(Pad(n, k), n)
  {
    PadValue(n, k);
  }

  lemma HoursMinutesSpell(m: nat, rest: string)
    requires m < 24 * 60
    ensures var s := FormatHoursMinutes(m, rest);
            |s| == 5 + |rest| && Denotes(s[..2], m / 60) && s[2] == ':' && Denotes(s[3..5], m % 60) && s[5..] == rest
  {
    hide Denotes;
    NineDigitNumbers();
    PadDenotes(m / 60, 2);
    PadDenotes(m % 60, 2);
    hide Pad;
    var s := FormatHoursMinutes(m, rest);
    assert s[..2] == Pad(m / 60, 2) && s[3..5] == Pad(m % 60, 2);
  }

  lemma ZoneMinutesSize(offset: int)
    requires -SECONDS_PER_DAY < offset < SECONDS_PER_DAY
    ensures var zone := ZoneMinutes(offset);
            var m := if zone < 0 then -zone else zone;
            && m < 24 * 60 && m * 60 <= (if offset < 0 then -offset else offset) < m * 60 + 60
            && (zone < 0 <==> offset <= -60)
  {
  }

  /** Z for UTC; else a sign, the hours and the minutes of the offset, its seconds cut off. */
  lemma ZoneSpells(offset: int, rest: string) returns (hours: int, minutes: int)
    requires -SECONDS_PER_DAY < offset < SECONDS_PER_DAY
    ensures offset == 0 ==> FormatZone(offset, rest) == "Z" + rest
    ensures offset != 0 ==>
              var s := FormatZone(offset, rest);
              && |s| >= 6 && s[0] == (if offset <= -60 then '-' else '+') && s[3] == ':' && s[6..] == rest
              && Denotes(s[1..3], hours) && Denotes(s[4..6], minutes) && 0 <= minutes < 60
              && var size := if offset < 0 then -offset else offset;
                 hours * 3600 + minutes * 60 <= size < hours * 3600 + minutes * 60 + 60
  {
    hide Denotes, ZoneMinutes, FormatHoursMinutes;
    ZoneMinutesSize(offset);
    var m := if ZoneMinutes(offset) < 0 then -ZoneMinutes(offset) else ZoneMinutes(offset);
    HoursMinutesSpell(m, rest);
    hours, minutes := m / 60, m % 60;
    if offset != 0 {
      var s := FormatZone(offset, rest);
      assert s[1..] == FormatHoursMinutes(m, rest);
      assert s[1..3] == s[1..][..2] && s[4..6] == s[1..][3..5] && s[6..] == s[1..][5..] && s[3] == s[1..][2];
    }
  }

  /** The three pieces of a date or of a clock reading, and what follows. */
  lemma Pieces(a: string, b: string, c: string, sep: char, end: string, rest: string)
    requires |b| == |c| == 2
    ensures var s := a + ([sep] + (b + ([sep] + (c + (end + rest)))));
            var n := |a|;
            && |s| == n + 6 + |end| + |rest| && s[..n] == a && s[n] == sep && s[n + 1..n + 3] == b
            && s[n + 3] == sep && s[n + 4..n + 6] == c && s[n + 6..] == end + rest
  {
  }

  lemma DateSpells(t: Time, rest: string)
    requires Marshalable(t)
    ensures var s := FormatDate(t, rest);
            && |s| == 11 + |rest| && s[4] == s[7] == '-' && s[10] == 'T' && s[11..] == rest
            && Denotes(s[..4], t.year) && Denotes(s[5..7], t.month) && Denotes(s[8..10], t.day)
  {
    hide Denotes, Pad;
    NineDigitNumbers();
    PadDenotes(t.year, 4);
    PadDenotes(t.month, 2);
    PadDenotes(t.day, 2);
    Pieces(Pad(t.year, 4), Pad(t.month, 2), Pad(t.day, 2), '-', "T", rest);
    var s := FormatDate(t, rest);
    assert s[11..] == s[10..][1..] && s[10] == s[10..][0];
  }

  lemma ClockSpells(t: Time, rest: string)
    ensures var s := FormatClock(t, rest);
            && |s| == 8 + |rest| && s[2] == s[5] == ':' && s[8..] == rest
            && Denotes(s[..2], t.hour) && Denotes(s[3..5], t.minute) && Denotes(s[6..8], t.second)
  {
    hide Denotes, Pad;
    NineDigitNumbers();
    PadDenotes(t.hour, 2);
    PadDenotes(t.minute, 2);
    PadDenotes(t.second, 2);
    Pieces(Pad(t.hour, 2), Pad(t.minute, 2), Pad(t.second, 2), ':', "", rest);
    assert "" + rest == rest;
  }

  /** Year, month and day, a T, hour, minute and second, each in its place. */
  lemma FormatSpells(t: Time, rest: string)
    requires Marshalable(t)
    ensures var s := Format(t, rest);
            && |s| >= 19 && s[4] == s[7] == '-' && s[10] == 'T' && s[13] == s[16] == ':'
            && Denotes(s[..4], t.year) && Denotes(s[5..7], t.month) && Denotes(s[8..10], t.day)
            && Denotes(s[11..13], t.hour) && Denotes(s[14..16], t.minute) && Denotes(s[17..19], t.second)
            && s[19..] == FormatFraction(t.nano, FormatZone(t.offset, rest))
  {
    hide FormatDate, FormatClock, FormatFraction, FormatZone, Denotes;
    var tail := FormatFraction(t.nano, FormatZone(t.offset, rest));
    var clock := FormatClock(t, tail);
    ClockSpells(t, tail);
    DateSpells(t, clock);
    var s := Format(t, rest);
    assert s[11..13] == s[11..][..2] && s[14..16] == s[11..][3..5] && s[17..19] == s[11..][6..8];
    assert s[19..] == s[11..][8..] && s[13] == s[11..][2] && s[16] == s[11..][5];
  }
}
