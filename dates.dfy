/**
  Calendar values read from the clock, and the `strftime` formats the script
  uses: `%Y-%m-%d` for the file name and `%Y-%m-%dT%H:%M:%S+09:00` for the
  front-matter date. The clock itself is not modelled: callers pass the
  value it returned.
 */
module Dates {

  datatype Date = Date(year: int, month: int, day: int)

  datatype Timestamp = Timestamp(date: Date, hour: int, minute: int, second: int)

  predicate IsLeapYear(y: int)
  {
    y % 4 == 0 && (y % 100 != 0 || y % 400 == 0)
  }

  function DaysInMonth(y: int, m: int): int
    requires 1 <= m <= 12
  {
    if m == 2 then (if IsLeapYear(y) then 29 else 28)
    else if m == 4 || m == 6 || m == 9 || m == 11 then 30
    else 31
  }

  /** A date the clock can return, restricted to four-digit years. */
  predicate ValidDate(d: Date)
  {
    && 1000 <= d.year <= 9999
    && 1 <= d.month <= 12
    && 1 <= d.day <= DaysInMonth(d.year, d.month)
  }

  predicate ValidTimestamp(t: Timestamp)
  {
    && ValidDate(t.date)
    && 0 <= t.hour < 24
    && 0 <= t.minute < 60
    && 0 <= t.second < 60
  }

  // ---------------------------------------------------------------------
  // Decimal digits
  // ---------------------------------------------------------------------

  function Digit(n: int): char
    requires 0 <= n < 10
  {
    ('0' as int + n) as char
  }

  predicate IsDigit(c: char)
  {
    '0' <= c <= '9'
  }

  /** The value of a string of decimal digits, read most significant first. */
  function Number(s: string): int
    decreases |s|
  {
    if s == [] then 0 else Number(s[..|s| - 1]) * 10 + (s[|s| - 1] as int - '0' as int)
  }

  /** `n` as exactly two decimal digits, zero-padded (`%02d`). */
  function Pad2(n: int): (r: string)
    requires 0 <= n < 100
    ensures |r| == 2 && IsDigit(r[0]) && IsDigit(r[1])
    ensures Number(r) == n
  {
    var r := [Digit(n / 10), Digit(n % 10)];
    assert r[..1] == [Digit(n / 10)];
    assert Number(r[..1]) == n / 10 by {
      assert r[..1][..0] == [];
    }
    r
  }

  /** `n` as exactly four decimal digits, zero-padded (`%04d`). */
  function Pad4(n: int): (r: string)
    requires 0 <= n < 10000
    ensures |r| == 4 && forall i :: 0 <= i < 4 ==> IsDigit(r[i])
    ensures Number(r) == n
  {
    var hi := Pad2(n / 100);
    var lo := Pad2(n % 100);
    var r := hi + lo;
    NumberAppend(hi, lo);
    r
  }

  /** Reading two digits after a prefix multiplies the prefix by one hundred. */
  lemma NumberAppend(hi: string, lo: string)
    requires |lo| == 2
    ensures Number(hi + lo) == Number(hi) * 100 + Number(lo)
  {
    var s := hi + lo;
    var a, b := lo[0] as int - '0' as int, lo[1] as int - '0' as int;
    assert s[..|s| - 1] == hi + [lo[0]];
    assert (hi + [lo[0]])[..|hi|] == hi;
    assert Number(hi + [lo[0]]) == Number(hi) * 10 + a;
    assert lo[..1] == [lo[0]] && [lo[0]][..0] == [];
    assert lo[..|lo| - 1] == [lo[0]];
    assert Number([lo[0]]) == a;
    assert Number(lo) == a * 10 + b;
    assert Number(s) == Number(hi + [lo[0]]) * 10 + b;
  }

  // ---------------------------------------------------------------------
  // Formats
  // ---------------------------------------------------------------------

  /**
    `strftime('%Y-%m-%d')`: ten characters, dashes at positions 4 and 7,
    and the three fields read back as the year, month and day.
   */
  function FormatDate(d: Date): (r: string)
    requires ValidDate(d)
    ensures |r| == 10 && r[4] == '-' && r[7] == '-'
    ensures forall i :: 0 <= i < 10 && i != 4 && i != 7 ==> IsDigit(r[i])
    ensures Number(r[..4]) == d.year && Number(r[5..7]) == d.month && Number(r[8..]) == d.day
  {
    var y, m, dd := Pad4(d.year), Pad2(d.month), Pad2(d.day);
    var r := y + "-" + m + "-" + dd;
    assert r[..4] == y && r[5..7] == m && r[8..] == dd;
    r
  }

  /** Reads back a formatted date. */
  function ParseDate(s: string): Date
    requires |s| == 10
  {
    Date(Number(s[..4]), Number(s[5..7]), Number(s[8..]))
  }

  lemma DateRoundTrip(d: Date)
    requires ValidDate(d)
    ensures ParseDate(FormatDate(d)) == d
  {
  }

  /** Different days are written differently. */
  lemma FormatDateInjective(d1: Date, d2: Date)
    requires ValidDate(d1) && ValidDate(d2)
    ensures FormatDate(d1) == FormatDate(d2) <==> d1 == d2
  {
    if FormatDate(d1) == FormatDate(d2) {
      DateRoundTrip(d1);
      DateRoundTrip(d2);
    }
  }

  /** The fixed UTC offset the front-matter date carries, whatever the clock's zone. */
  const Offset: string := "+09:00"

  /**
    `strftime('%Y-%m-%dT%H:%M:%S+09:00')`: the date, a `T`, the time of day
    as zero-padded fields separated by colons, and the literal offset.
   */
  function FormatTimestamp(t: Timestamp): (r: string)
    requires ValidTimestamp(t)
    ensures |r| == 25 && r[..10] == FormatDate(t.date) && r[10] == 'T'
    ensures r[13] == ':' && r[16] == ':' && r[19..] == Offset
    ensures forall i :: 11 <= i < 19 && i != 13 && i != 16 ==> IsDigit(r[i])
    ensures Number(r[11..13]) == t.hour && Number(r[14..16]) == t.minute && Number(r[17..19]) == t.second
  {
    var d := FormatDate(t.date);
    var h, m, s := Pad2(t.hour), Pad2(t.minute), Pad2(t.second);
    var r := d + "T" + h + ":" + m + ":" + s + Offset;
    assert r[..10] == d && r[11..13] == h && r[14..16] == m && r[17..19] == s && r[19..] == Offset;
    r
  }

  /** Reads back a formatted timestamp. */
  function ParseTimestamp(s: string): Timestamp
    requires |s| == 25
  {
    Timestamp(ParseDate(s[..10]), Number(s[11..13]), Number(s[14..16]), Number(s[17..19]))
  }

  lemma TimestampRoundTrip(t: Timestamp)
    requires ValidTimestamp(t)
    ensures ParseTimestamp(FormatTimestamp(t)) == t
  {
    DateRoundTrip(t.date);
  }

  /** 5 March 2024 renders as `2024-03-05`. */
  lemma FormatDateExample()
    ensures FormatDate(Date(2024, 3, 5)) == "2024-03-05"
  {
  }
}
