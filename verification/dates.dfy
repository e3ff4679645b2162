/** `parse_date_to_timestamp`: a post's date text read as an instant, first as
    an RFC 3339 date-time (section 5.6 of RFC 3339), then as a plain
    `YYYY-MM-DD` date at midnight UTC. Instants are nanoseconds since
    1970-01-01T00:00:00Z in the proleptic Gregorian calendar. */
module Dates {
  import opened Wrappers
  import opened Text

  const SECONDS_PER_DAY: int := 86400
  const NANOS_PER_SECOND: int := 1_000_000_000
  const NANOS_PER_DAY: int := SECONDS_PER_DAY * NANOS_PER_SECOND

  // ---------------------------------------------------------------------------
  // The calendar
  // ---------------------------------------------------------------------------

  predicate IsLeapYear(y: int) {
    y % 4 == 0 && (y % 100 != 0 || y % 400 == 0)
  }

  function DaysInYear(y: int): nat {
    if IsLeapYear(y) then 366 else 365
  }

  function DaysInMonth(y: int, m: int): nat
    requires 1 <= m <= 12
  {
    if m == 2 then (if IsLeapYear(y) then 29 else 28)
    else if m == 4 || m == 6 || m == 9 || m == 11 then 30
    else 31
  }

  predicate ValidDate(y: int, m: int, d: int) {
    1 <= m <= 12 && 1 <= d <= DaysInMonth(y, m)
  }

  /** Days from 1970-01-01 to January 1st of `y`, counted a year at a time
      (negative before 1970). */
  function DaysToYear(y: int): int
    decreases if y >= 1970 then y - 1970 else 1970 - y
  {
    if y == 1970 then 0
    else if y > 1970 then DaysToYear(y - 1) + DaysInYear(y - 1)
    else DaysToYear(y + 1) - DaysInYear(y)
  }

  /** Days from January 1st to the first day of month `m`. */
  function DaysToMonth(y: int, m: int): nat
    requires 1 <= m <= 12
  {
    if m == 1 then 0 else DaysToMonth(y, m - 1) + DaysInMonth(y, m - 1)
  }

  /** The day number of a date: 0 for 1970-01-01. */
  function EpochDay(y: int, m: int, d: int): int
    requires ValidDate(y, m, d)
  {
    DaysToYear(y) + DaysToMonth(y, m) + d - 1
  }

  /** The day after a valid date. */
  function NextDay(y: int, m: int, d: int): (r: (int, int, int))
    requires ValidDate(y, m, d)
    ensures ValidDate(r.0, r.1, r.2)
  {
    if d < DaysInMonth(y, m) then (y, m, d + 1)
    else if m < 12 then (y, m + 1, 1)
    else (y + 1, 1, 1)
  }

  lemma DaysToYearStep(y: int)
    ensures DaysToYear(y + 1) == DaysToYear(y) + DaysInYear(y)
  {
    if y < 1970 {
      assert DaysToYear(y) == DaysToYear(y + 1) - DaysInYear(y);
    }
  }

  /** The months of a year add up to the year. */
  lemma MonthsFillYear(y: int)
    ensures DaysToMonth(y, 12) + DaysInMonth(y, 12) == DaysInYear(y)
  {
    var feb := DaysInMonth(y, 2);
    assert DaysToMonth(y, 2) == 31;
    assert DaysToMonth(y, 3) == 31 + feb;
    assert DaysToMonth(y, 4) == 62 + feb;
    assert DaysToMonth(y, 5) == 92 + feb;
    assert DaysToMonth(y, 6) == 123 + feb;
    assert DaysToMonth(y, 7) == 153 + feb;
    assert DaysToMonth(y, 8) == 184 + feb;
    assert DaysToMonth(y, 9) == 215 + feb;
    assert DaysToMonth(y, 10) == 245 + feb;
    assert DaysToMonth(y, 11) == 276 + feb;
    assert DaysToMonth(y, 12) == 306 + feb;
  }

  /** Day numbers count days: the day after a date has the next number. */
  lemma EpochDaySuccessor(y: int, m: int, d: int)
    requires ValidDate(y, m, d)
    ensures var (y2, m2, d2) := NextDay(y, m, d);
            EpochDay(y2, m2, d2) == EpochDay(y, m, d) + 1
  {
    if d == DaysInMonth(y, m) && m == 12 {
      DaysToYearStep(y);
      MonthsFillYear(y);
    }
  }

  lemma {:induction false} DaysToMonthBound(y: int, m: int)
    requires 1 <= m <= 12
    ensures DaysToMonth(y, m) + DaysInMonth(y, m) <= DaysInYear(y)
    decreases 12 - m
  {
    if m < 12 {
      DaysToMonthBound(y, m + 1);
    } else {
      MonthsFillYear(y);
    }
  }

  lemma {:induction false} DaysToYearSign(y: int)
    ensures y >= 1970 ==> DaysToYear(y) >= 365 * (y - 1970)
    ensures y < 1970 ==> DaysToYear(y) <= -365 * (1970 - y)
    decreases if y >= 1970 then y - 1970 else 1970 - y
  {
    if y > 1970 {
      DaysToYearSign(y - 1);
    } else if y < 1970 {
      DaysToYearSign(y + 1);
    }
  }

  /** A date is on or after 1970-01-01 exactly when its year is 1970 or
      later. */
  lemma EpochDayNonNegative(y: int, m: int, d: int)
    requires ValidDate(y, m, d)
    ensures EpochDay(y, m, d) >= 0 <==> y >= 1970
  {
    DaysToYearSign(y);
    DaysToMonthBound(y, m);
  }

  /** The leap years among 1, 2, …, n (counted backwards for n < 0). */
  function LeapsThrough(n: int): int {
    n / 4 - n / 100 + n / 400
  }

  /** Division by `k` rounds down, so it steps by one exactly at the
      multiples of `k`. */
  lemma DivStep(n: int, k: int)
    requires k > 0
    ensures n / k - (n - 1) / k == if n % k == 0 then 1 else 0
  {
    var q, r := (n - 1) / k, (n - 1) % k;
    if r == k - 1 {
      assert n == (q + 1) * k + 0;
      DivUnique(n, k, q + 1, 0);
    } else {
      assert n == q * k + (r + 1);
      DivUnique(n, k, q, r + 1);
    }
  }

  lemma DivUnique(n: int, k: int, q: int, r: int)
    requires k > 0 && 0 <= r < k && n == q * k + r
    ensures n / k == q && n % k == r
  {
    var q', r' := n / k, n % k;
    assert (q - q') * k == r' - r;
    if q > q' {
      MultipleAtLeast(q - q', k);
      assert false;
    } else if q < q' {
      MultipleAtLeast(q' - q, k);
      assert false;
    }
  }

  lemma MultipleAtLeast(a: int, k: int)
    requires a >= 1 && k > 0
    ensures a * k >= k
  {
    assert a * k == (a - 1) * k + k;
  }

  lemma LeapsStep(n: int)
    ensures LeapsThrough(n) - LeapsThrough(n - 1) == if IsLeapYear(n) then 1 else 0
  {
    DivStep(n, 4);
    DivStep(n, 100);
    DivStep(n, 400);
    if n % 100 == 0 {
      CenturyDivisibleBy4(n);
    }
  }

  /** Every multiple of 100 is a multiple of 4. */
  lemma CenturyDivisibleBy4(n: int)
    requires n % 100 == 0
    ensures n % 4 == 0
  {
    var q := n / 100;
    assert n == 25 * q * 4 + 0;
    DivUnique(n, 4, 25 * q, 0);
  }

  /** The closed form an implementation computes without iterating over the
      years agrees with the year-by-year count. */
  lemma {:induction false} DaysToYearClosedForm(y: int)
    ensures DaysToYear(y) == 365 * (y - 1970) + LeapsThrough(y - 1) - LeapsThrough(1969)
    decreases if y >= 1970 then y - 1970 else 1970 - y
  {
    if y > 1970 {
      DaysToYearClosedForm(y - 1);
      LeapsStep(y - 1);
    } else if y < 1970 {
      DaysToYearClosedForm(y + 1);
      LeapsStep(y);
    }
  }

  // ---------------------------------------------------------------------------
  // Reading the text
  // ---------------------------------------------------------------------------

  /** The digits of `s[i..j]` as a number, when they are all digits. */
  function NumberAt(s: string, i: nat, j: nat): Option<nat>
    requires i <= j <= |s|
  {
    if AllDigits(s[i..j]) then Some(DigitsValue(s[i..j])) else None
  }

  /** `YYYY-MM-DD` at the start of `s`: the year, month and day of a valid
      date. */
  function DateAt(s: string): (r: Option<(int, int, int)>)
    ensures r.Some? ==> ValidDate(r.value.0, r.value.1, r.value.2) && 0 <= r.value.0 <= 9999
  {
    if |s| < 10 || s[4] != '-' || s[7] != '-' then None
    else
      var y := NumberAt(s, 0, 4);
      var m := NumberAt(s, 5, 7);
      var d := NumberAt(s, 8, 10);
      if y.None? || m.None? || d.None? then None
      else if !ValidDate(y.value, m.value, d.value) then None
      else
        DigitsBound(s[0..4]);
        Some((y.value, m.value, d.value))
  }

  lemma {:induction false} DigitsBound(s: string)
    requires AllDigits(s)
    ensures DigitsValue(s) < Pow10(|s|)
  {
    if s != [] {
      DigitsBound(s[..|s| - 1]);
    }
  }

  function Pow10(n: nat): (r: nat)
    ensures r >= 1
  {
    if n == 0 then 1 else 10 * Pow10(n - 1)
  }

  /** The fraction of a second written by the digits `f`, in nanoseconds:
      digits past the ninth are dropped. */
  function FractionNanos(f: string): (r: nat)
    requires AllDigits(f)
    ensures r < NANOS_PER_SECOND
  {
    var nine := if |f| < 9 then f + seq(9 - |f|, _ => '0') else f[..9];
    assert AllDigits(nine);
    DigitsBound(nine);
    assert Pow10(9) == NANOS_PER_SECOND;
    DigitsValue(nine)
  }

  /** The length of the run of digits starting at `i`. */
  function DigitRun(s: string, i: nat): (n: nat)
    requires i <= |s|
    ensures i + n <= |s| && AllDigits(s[i..i + n])
    ensures i + n < |s| ==> !IsDigit(s[i + n])
    decreases |s| - i
  {
    if i == |s| || !IsDigit(s[i]) then 0
    else
      var n := DigitRun(s, i + 1);
      assert s[i..i + 1 + n] == [s[i]] + s[i + 1..i + 1 + n];
      1 + n
  }

  /** `time-offset` from position `i` to the end: `Z`, `z` or `±hh:mm`, in
      seconds east of UTC. */
  function OffsetAt(s: string, i: nat): Option<int>
    requires i <= |s|
  {
    if |s| == i + 1 && (s[i] == 'Z' || s[i] == 'z') then Some(0)
    else if |s| == i + 6 && (s[i] == '+' || s[i] == '-') && s[i + 3] == ':' then
      var hh := NumberAt(s, i + 1, i + 3);
      var mm := NumberAt(s, i + 4, i + 6);
      if hh.None? || mm.None? || hh.value > 23 || mm.value > 59 then None
      else
        var secs := hh.value * 3600 + mm.value * 60;
        Some(if s[i] == '+' then secs else -secs)
    else None
  }

  /** `DateTime::parse_from_rfc3339`: `full-date`, a `T`, `t` or space,
      `hh:mm:ss`, an optional fraction, then the offset; the instant is the
      local time less the offset. A second of 60 (a leap second) counts as
      the first second of the next minute. */
  function ParseRfc3339(s: string): Option<int> {
    var date := DateAt(s);
    if date.None? || |s| < 20 || !(s[10] == 'T' || s[10] == 't' || s[10] == ' ')
       || s[13] != ':' || s[16] != ':' then None
    else
      var hh := NumberAt(s, 11, 13);
      var mi := NumberAt(s, 14, 16);
      var ss := NumberAt(s, 17, 19);
      if hh.None? || mi.None? || ss.None? || hh.value > 23 || mi.value > 59 || ss.value > 60 then None
      else
        var (y, m, d) := date.value;
        var fracLen := if s[19] == '.' then DigitRun(s, 20) else 0;
        if s[19] == '.' && fracLen == 0 then None
        else
          var offsetAt := if s[19] == '.' then 20 + fracLen else 19;
          var offset := OffsetAt(s, offsetAt);
          if offset.None? then None
          else
            var nanos := if s[19] == '.' then FractionNanos(s[20..20 + fracLen]) else 0;
            var local := EpochDay(y, m, d) * SECONDS_PER_DAY + hh.value * 3600 + mi.value * 60 + ss.value;
            Some((local - offset.value) * NANOS_PER_SECOND + nanos)
  }

  /** `NaiveDate::parse_from_str(s, "%Y-%m-%d")` at midnight UTC. */
  function ParsePlainDate(s: string): (r: Option<int>)
    ensures r.Some? ==> r.value % NANOS_PER_DAY == 0
  {
    var date := DateAt(s);
    if date.None? || |s| != 10 then None
    else
      var (y, m, d) := date.value;
      Some(EpochDay(y, m, d) * NANOS_PER_DAY)
  }

  /** `parse_date_to_timestamp`: RFC 3339 first, then the plain date. */
  function ParseDateToTimestamp(s: string): (r: Option<int>)
    ensures ParseRfc3339(s).Some? ==> r == ParseRfc3339(s)
    ensures ParseRfc3339(s).None? ==> r == ParsePlainDate(s)
  {
    var rfc := ParseRfc3339(s);
    if rfc.Some? then rfc else ParsePlainDate(s)
  }

  /** `embed_metadata` sets the file's timestamps only for a date that is
      neither empty nor "Unknown Date", that parses, and whose instant is not
      before the Unix epoch (`duration_since(UNIX_EPOCH)` succeeds). */
  predicate TimestampApplies(date: string) {
    date != "" && date != "Unknown Date"
    && ParseDateToTimestamp(date).Some? && ParseDateToTimestamp(date).value >= 0
  }

  // ---------------------------------------------------------------------------
  // Writing dates, and reading them back
  // ---------------------------------------------------------------------------

  /** The last decimal digit of `n`. */
  function Digit(n: nat): (c: char)
    ensures IsDigit(c) && DigitValue(c) == n % 10
  {
    DigitChar(n % 10)
  }

  /** `{:02}`: the last two digits of `n`. */
  function TwoDigits(n: nat): (r: string)
    ensures |r| == 2 && AllDigits(r)
  {
    [Digit(n / 10), Digit(n)]
  }

  /** `YYYY-MM-DD`, each field zero-padded. */
  function FormatDate(y: nat, m: nat, d: nat): (r: string)
    ensures |r| == 10
  {
    [Digit(y / 1000), Digit(y / 100), Digit(y / 10), Digit(y), '-'] + TwoDigits(m) + ['-'] + TwoDigits(d)
  }

  /** `hh:mm:ss`. */
  function FormatTime(hh: nat, mi: nat, ss: nat): (r: string)
    ensures |r| == 8
  {
    TwoDigits(hh) + [':'] + TwoDigits(mi) + [':'] + TwoDigits(ss)
  }

  /** The number of seconds from midnight to `hh:mm:ss`. */
  function SecondsOfDay(hh: nat, mi: nat, ss: nat): nat {
    hh * 3600 + mi * 60 + ss
  }

  /** Appending a digit shifts the value one place. */
  lemma DigitsValueAppend(t: string, c: char)
    requires AllDigits(t) && IsDigit(c)
    ensures AllDigits(t + [c]) && DigitsValue(t + [c]) == 10 * DigitsValue(t) + DigitValue(c)
  {
    assert (t + [c])[..|t|] == t;
  }

  /** The digits of `n / 10` followed by the last digit of `n` read as `n`. */
  lemma NextDigitRead(t: string, n: nat)
    requires AllDigits(t) && DigitsValue(t) == n / 10
    ensures AllDigits(t + [Digit(n)]) && DigitsValue(t + [Digit(n)]) == n
  {
    DigitsValueAppend(t, Digit(n));
  }

  lemma TwoDigitsRead(s: string, i: nat, n: nat)
    requires n < 100 && i + 2 <= |s| && s[i] == Digit(n / 10) && s[i + 1] == Digit(n)
    ensures NumberAt(s, i, i + 2) == Some(n)
  {
    assert s[i..i + 2] == [] + [Digit(n / 10)] + [Digit(n)];
    NextDigitRead([], n / 10);
    NextDigitRead([Digit(n / 10)], n);
  }

  lemma FourDigitsRead(s: string, y: nat)
    requires y <= 9999 && 4 <= |s|
    requires s[0] == Digit(y / 1000) && s[1] == Digit(y / 100) && s[2] == Digit(y / 10) && s[3] == Digit(y)
    ensures NumberAt(s, 0, 4) == Some(y)
  {
    assert s[0..4] == [] + [Digit(y / 1000)] + [Digit(y / 100)] + [Digit(y / 10)] + [Digit(y)];
    assert y / 10 / 10 == y / 100 && y / 100 / 10 == y / 1000;
    NextDigitRead([], y / 1000);
    NextDigitRead([Digit(y / 1000)], y / 100);
    NextDigitRead([Digit(y / 1000)] + [Digit(y / 100)], y / 10);
    NextDigitRead([Digit(y / 1000)] + [Digit(y / 100)] + [Digit(y / 10)], y);
  }

  /** The fields of a date written at the start of `s`. */
  lemma DateFieldsAt(s: string, y: nat, m: nat, d: nat)
    requires ValidDate(y, m, d) && y <= 9999
    requires |s| >= 10 && s[..10] == FormatDate(y, m, d)
    ensures DateAt(s) == Some((y, m, d))
  {
    var f := FormatDate(y, m, d);
    assert forall j :: 0 <= j < 10 ==> s[j] == f[j];
    FourDigitsRead(s, y);
    TwoDigitsRead(s, 5, m);
    TwoDigitsRead(s, 8, d);
  }

  /** The fields of a time written at position 11 of `s`. */
  lemma TimeFieldsAt(s: string, hh: nat, mi: nat, ss: nat)
    requires hh <= 23 && mi <= 59 && ss <= 59
    requires |s| >= 19 && s[11..19] == FormatTime(hh, mi, ss)
    ensures s[13] == ':' && s[16] == ':'
    ensures NumberAt(s, 11, 13) == Some(hh) && NumberAt(s, 14, 16) == Some(mi) && NumberAt(s, 17, 19) == Some(ss)
  {
    var t := FormatTime(hh, mi, ss);
    assert forall j :: 0 <= j < 8 ==> s[11 + j] == t[j];
    TwoDigitsRead(s, 11, hh);
    TwoDigitsRead(s, 14, mi);
    TwoDigitsRead(s, 17, ss);
  }

  /** A written date reads back as its own midnight UTC, and the RFC 3339
      reading, which needs a time, does not claim it. */
  lemma PlainDateRoundTrip(y: nat, m: nat, d: nat)
    requires ValidDate(y, m, d) && y <= 9999
    ensures ParseRfc3339(FormatDate(y, m, d)) == None
    ensures ParseDateToTimestamp(FormatDate(y, m, d)) == Some(EpochDay(y, m, d) * NANOS_PER_DAY)
  {
    var s := FormatDate(y, m, d);
    DateFieldsAt(s, y, m, d);
  }

  /** For a plain date the timestamp is applied exactly from 1970 on. */
  lemma PlainDateTimestampFrom1970(y: nat, m: nat, d: nat)
    requires ValidDate(y, m, d) && y <= 9999
    ensures TimestampApplies(FormatDate(y, m, d)) <==> y >= 1970
  {
    PlainDateRoundTrip(y, m, d);
    EpochDayNonNegative(y, m, d);
    var s := FormatDate(y, m, d);
    assert s != "" && s != "Unknown Date" by {
      assert |s| == 10 && |"Unknown Date"| == 12;
    }
  }

  /** A zone written `+hh:mm` or `-hh:mm` at the end of `s` reads back as
      that many seconds east or west of UTC. */
  lemma OffsetFieldsAt(s: string, i: nat, east: bool, oh: nat, om: nat)
    requires oh <= 23 && om <= 59 && |s| == i + 6
    requires s[i] == (if east then '+' else '-') && s[i + 3] == ':'
    requires s[i + 1] == Digit(oh / 10) && s[i + 2] == Digit(oh)
    requires s[i + 4] == Digit(om / 10) && s[i + 5] == Digit(om)
    ensures OffsetAt(s, i) == Some(if east then oh * 3600 + om * 60 else -(oh * 3600 + om * 60))
  {
    TwoDigitsRead(s, i + 1, oh);
    TwoDigitsRead(s, i + 4, om);
  }

  /** A date-time without a fraction of a second, field by field. */
  lemma WholeSecondsRead(s: string, y: nat, m: nat, d: nat, hh: nat, mi: nat, ss: nat, offset: int)
    requires ValidDate(y, m, d) && y <= 9999 && hh <= 23 && mi <= 59 && ss <= 59
    requires DateAt(s) == Some((y, m, d)) && |s| >= 20 && s[10] == 'T'
    requires s[13] == ':' && s[16] == ':' && s[19] != '.'
    requires NumberAt(s, 11, 13) == Some(hh) && NumberAt(s, 14, 16) == Some(mi) && NumberAt(s, 17, 19) == Some(ss)
    requires OffsetAt(s, 19) == Some(offset)
    ensures ParseDateToTimestamp(s)
              == Some((EpochDay(y, m, d) * SECONDS_PER_DAY + SecondsOfDay(hh, mi, ss) - offset) * NANOS_PER_SECOND)
  {
  }

  /** A written UTC date-time reads back as its instant. */
  lemma Rfc3339UtcRoundTrip(y: nat, m: nat, d: nat, hh: nat, mi: nat, ss: nat)
    requires ValidDate(y, m, d) && y <= 9999 && hh <= 23 && mi <= 59 && ss <= 59
    ensures ParseDateToTimestamp(FormatDate(y, m, d) + "T" + FormatTime(hh, mi, ss) + "Z")
              == Some((EpochDay(y, m, d) * SECONDS_PER_DAY + SecondsOfDay(hh, mi, ss)) * NANOS_PER_SECOND)
  {
    var s := FormatDate(y, m, d) + "T" + FormatTime(hh, mi, ss) + "Z";
    assert s[..10] == FormatDate(y, m, d);
    assert s[11..19] == FormatTime(hh, mi, ss);
    DateFieldsAt(s, y, m, d);
    TimeFieldsAt(s, hh, mi, ss);
    assert s[10] == 'T' && s[19] == 'Z' && |s| == 20;
    WholeSecondsRead(s, y, m, d, hh, mi, ss, 0);
  }

  /** The same wall-clock time written with the offset `+oh:om` (east of
      UTC) or `-oh:om` is that much earlier or later than in UTC. */
  lemma Rfc3339OffsetRoundTrip(y: nat, m: nat, d: nat, hh: nat, mi: nat, ss: nat, east: bool, oh: nat, om: nat)
    requires ValidDate(y, m, d) && y <= 9999 && hh <= 23 && mi <= 59 && ss <= 59 && oh <= 23 && om <= 59
    ensures var zone := [if east then '+' else '-'] + TwoDigits(oh) + [':'] + TwoDigits(om);
            var offset := if east then oh * 3600 + om * 60 else -(oh * 3600 + om * 60);
            ParseDateToTimestamp(FormatDate(y, m, d) + "T" + FormatTime(hh, mi, ss) + zone)
              == Some((EpochDay(y, m, d) * SECONDS_PER_DAY + SecondsOfDay(hh, mi, ss) - offset) * NANOS_PER_SECOND)
  {
    var zone := [if east then '+' else '-'] + TwoDigits(oh) + [':'] + TwoDigits(om);
    var offset := if east then oh * 3600 + om * 60 else -(oh * 3600 + om * 60);
    var s := FormatDate(y, m, d) + "T" + FormatTime(hh, mi, ss) + zone;
    assert s[..10] == FormatDate(y, m, d);
    assert s[11..19] == FormatTime(hh, mi, ss);
    DateFieldsAt(s, y, m, d);
    TimeFieldsAt(s, hh, mi, ss);
    assert |s| == 25 && s[10] == 'T';
    assert s[19] == zone[0] && s[20] == zone[1] && s[21] == zone[2];
    assert s[22] == zone[3] && s[23] == zone[4] && s[24] == zone[5];
    OffsetFieldsAt(s, 19, east, oh, om);
    WholeSecondsRead(s, y, m, d, hh, mi, ss, offset);
  }
}
