/**
 * Calendar timestamps at minute resolution, the Gregorian validity rules
 * that Python's strptime/datetime enforce, the day-first posting-date
 * format "%d/%m/%Y" used when loading and exporting, and the text
 * str(Timestamp) gives a midnight posting date inside the identity hash.
 */
module Calendar {
  import opened Wrappers

  /** A timestamp with minute resolution (pandas Timestamp, seconds always zero here). */
  datatype Timestamp = Timestamp(year: nat, month: nat, day: nat, hour: nat, minute: nat)

  predicate IsLeapYear(y: nat)
  {
    y % 4 == 0 && (y % 100 != 0 || y % 400 == 0)
  }

  function DaysInMonth(y: nat, m: nat): (n: nat)
    requires 1 <= m <= 12
    ensures 28 <= n <= 31
    ensures m == 2 ==> (n == 29 <==> IsLeapYear(y))
  {
    if m == 2 then (if IsLeapYear(y) then 29 else 28)
    else if m == 4 || m == 6 || m == 9 || m == 11 then 30
    else 31
  }

  /** What datetime(y, m, d) accepts: years 1..9999, months 1..12, days within the month. */
  predicate ValidDate(y: nat, m: nat, d: nat)
  {
    1 <= y <= 9999 && 1 <= m <= 12 && 1 <= d <= DaysInMonth(y, m)
  }

  predicate ValidTime(h: nat, min: nat)
  {
    h < 24 && min < 60
  }

  predicate Valid(t: Timestamp)
  {
    ValidDate(t.year, t.month, t.day) && ValidTime(t.hour, t.minute)
  }

  /** The posting date at midnight, as pandas holds a parsed "Datum". */
  predicate IsMidnight(t: Timestamp)
  {
    t.hour == 0 && t.minute == 0
  }

  /**
   * A number that orders timestamps chronologically: for valid timestamps,
   * Rank(a) <= Rank(b) exactly when a is not later than b.
   */
  function Rank(t: Timestamp): int
  {
    ((((t.year * 13 + t.month) * 32 + t.day) * 24 + t.hour) * 60) + t.minute
  }

  /** Lexicographic "not later than" on (year, month, day, hour, minute). */
  predicate NotLater(a: Timestamp, b: Timestamp)
  {
    a.year < b.year ||
    (a.year == b.year && (a.month < b.month ||
    (a.month == b.month && (a.day < b.day ||
    (a.day == b.day && (a.hour < b.hour ||
    (a.hour == b.hour && a.minute <= b.minute)))))))
  }

  lemma RankIsChronological(a: Timestamp, b: Timestamp)
    requires Valid(a) && Valid(b)
    ensures Rank(a) <= Rank(b) <==> NotLater(a, b)
  {
  }

  // ---------------------------------------------------------------- digits

  predicate IsDigit(c: char)
  {
    '0' <= c <= '9'
  }

  predicate AllDigits(s: string)
  {
    forall i :: 0 <= i < |s| ==> IsDigit(s[i])
  }

  function DigitValue(c: char): nat
    requires IsDigit(c)
  {
    (c - '0') as nat
  }

  function DigitChar(n: nat): (c: char)
    requires n < 10
    ensures IsDigit(c) && DigitValue(c) == n
  {
    ('0' as int + n) as char
  }

  /** The decimal value of a digit string (most significant digit first). */
  function DecimalValue(s: string): nat
    requires AllDigits(s)
  {
    if s == [] then 0 else DecimalValue(s[..|s| - 1]) * 10 + DigitValue(s[|s| - 1])
  }

  /** The last two decimal digits of n, zero-padded (the %02d of strftime and of str(Timestamp)). */
  function Pad2(n: nat): (s: string)
    ensures |s| == 2 && AllDigits(s) && DecimalValue(s) == n % 100
  {
    var s := [DigitChar(n / 10 % 10), DigitChar(n % 10)];
    assert s[..1] == [DigitChar(n / 10 % 10)];
    assert DecimalValue(s[..1]) == n / 10 % 10 by {
      assert s[..1][..0] == [];
    }
    s
  }

  /** Appending two digits shifts the value by two places. */
  lemma DecimalValueAppend2(a: string, b: string)
    requires AllDigits(a) && AllDigits(b) && |b| == 2
    ensures AllDigits(a + b) && DecimalValue(a + b) == DecimalValue(a) * 100 + DecimalValue(b)
  {
    var ab, a0 := a + b, a + [b[0]];
    var d0, d1 := DigitValue(b[0]), DigitValue(b[1]);
    assert AllDigits(ab);
    assert ab[..|ab| - 1] == a0 && ab[|ab| - 1] == b[1];
    assert DecimalValue(ab) == DecimalValue(a0) * 10 + d1;
    assert a0[..|a0| - 1] == a && a0[|a0| - 1] == b[0];
    assert DecimalValue(a0) == DecimalValue(a) * 10 + d0;
    assert b[..|b| - 1] == [b[0]] && [b[0]][..0] == [];
    assert DecimalValue([b[0]]) == d0;
    assert DecimalValue(b) == d0 * 10 + d1;
    assert (DecimalValue(a) * 10 + d0) * 10 == DecimalValue(a) * 100 + d0 * 10;
  }

  /** The last four digits of n are its hundreds pair followed by its units pair. */
  lemma SplitFourDigits(n: nat)
    ensures n / 100 % 100 * 100 + n % 100 == n % 10000
  {
    var q, r := n / 10000, n % 10000;
    assert n == q * 10000 + r;
    assert n / 100 == q * 100 + r / 100;
    assert n / 100 % 100 == r / 100;
    assert n % 100 == r % 100;
  }

  /** The last four decimal digits of n, zero-padded (the %Y of strftime and of str(Timestamp)). */
  function Pad4(n: nat): (s: string)
    ensures |s| == 4 && AllDigits(s) && DecimalValue(s) == n % 10000
  {
    var hi := Pad2(n / 100);
    var lo := Pad2(n % 100);
    DecimalValueAppend2(hi, lo);
    SplitFourDigits(n);
    hi + lo
  }

  // ------------------------------------------------------ "%d/%m/%Y" parsing

  /** The first index of `c` in `s`, if any. */
  function IndexOf(s: string, c: char): (r: Option<nat>)
    ensures r.Some? ==> r.value < |s| && s[r.value] == c && c !in s[..r.value]
    ensures r.None? ==> c !in s
  {
    if s == [] then None
    else if s[0] == c then Some(0)
    else
      var k := IndexOf(s[1..], c);
      if k.None? then None
      else
        assert s[..k.value + 1] == [s[0]] + s[1..][..k.value];
        Some(k.value + 1)
  }

  /** strptime's %d: "3[01]|[12]\d|0[1-9]|[1-9]| [1-9]", matched as a whole field. */
  function DayField(t: string): (r: Option<nat>)
    ensures r.Some? ==> 1 <= r.value <= 31
  {
    if |t| == 1 && IsDigit(t[0]) && t[0] != '0' then Some(DigitValue(t[0]))
    else if |t| == 2 && t[0] == ' ' && IsDigit(t[1]) && t[1] != '0' then Some(DigitValue(t[1]))
    else if |t| == 2 && AllDigits(t) && 1 <= DecimalValue(t) <= 31 then Some(DecimalValue(t))
    else None
  }

  /** strptime's %m: "1[0-2]|0[1-9]|[1-9]", matched as a whole field. */
  function MonthField(t: string): (r: Option<nat>)
    ensures r.Some? ==> 1 <= r.value <= 12
  {
    if |t| == 1 && IsDigit(t[0]) && t[0] != '0' then Some(DigitValue(t[0]))
    else if |t| == 2 && AllDigits(t) && 1 <= DecimalValue(t) <= 12 then Some(DecimalValue(t))
    else None
  }

  /** strptime's %Y: exactly four digits. */
  function YearField(t: string): Option<nat>
  {
    if |t| == 4 && AllDigits(t) then Some(DecimalValue(t)) else None
  }

  /**
   * pd.to_datetime(text, format="%d/%m/%Y"): the text must be exactly a day
   * field, '/', a month field, '/', a four-digit year, naming a real date;
   * the result is that date at midnight. None is the ValueError pandas raises.
   */
  function ParsePostingDate(s: string): Option<Timestamp>
  {
    match IndexOf(s, '/')
    case None => None
    case Some(i) =>
      var rest := s[i + 1..];
      match IndexOf(rest, '/')
      case None => None
      case Some(j) =>
        var d := DayField(s[..i]);
        var m := MonthField(rest[..j]);
        var y := YearField(rest[j + 1..]);
        if d.Some? && m.Some? && y.Some? && ValidDate(y.value, m.value, d.value)
        then Some(Timestamp(y.value, m.value, d.value, 0, 0))
        else None
  }

  /** A parsed posting date is a real date, at midnight. */
  lemma ParsedPostingDateValid(s: string)
    requires ParsePostingDate(s).Some?
    ensures Valid(ParsePostingDate(s).value) && IsMidnight(ParsePostingDate(s).value)
  {
  }

  /** Timestamp.strftime("%d/%m/%Y"), the posting date written by the export. */
  function FormatPostingDate(t: Timestamp): string
  {
    Pad2(t.day) + "/" + Pad2(t.month) + "/" + Pad4(t.year)
  }

  /** Reading "D/M/Y" when neither D nor M holds a '/'. */
  lemma ParseOfFields(d: string, m: string, y: string)
    requires '/' !in d && '/' !in m
    ensures var r := ParsePostingDate(d + "/" + m + "/" + y);
      var (df, mf, yf) := (DayField(d), MonthField(m), YearField(y));
      r == if df.Some? && mf.Some? && yf.Some? && ValidDate(yf.value, mf.value, df.value)
           then Some(Timestamp(yf.value, mf.value, df.value, 0, 0)) else None
  {
    var s := d + "/" + m + "/" + y;
    var rest := m + "/" + y;
    assert s[..|d|] == d && s[|d|] == '/' && s[|d| + 1..] == rest;
    assert IndexOf(s, '/') == Some(|d|);
    assert rest[..|m|] == m && rest[|m|] == '/' && rest[|m| + 1..] == y;
    assert IndexOf(rest, '/') == Some(|m|);
  }

  lemma PaddedFieldsParse(t: Timestamp)
    requires Valid(t)
    ensures DayField(Pad2(t.day)) == Some(t.day)
    ensures MonthField(Pad2(t.month)) == Some(t.month)
    ensures YearField(Pad4(t.year)) == Some(t.year)
  {
    assert t.day % 100 == t.day && t.month % 100 == t.month && t.year % 10000 == t.year;
  }

  /** Exporting a posting date and reading it back with the import format gives the same day. */
  lemma PostingDateRoundTrip(t: Timestamp)
    requires Valid(t) && IsMidnight(t)
    ensures ParsePostingDate(FormatPostingDate(t)) == Some(t)
  {
    var dd, mm, yyyy := Pad2(t.day), Pad2(t.month), Pad4(t.year);
    PaddedFieldsParse(t);
    assert '/' !in dd && '/' !in mm by { assert !IsDigit('/'); }
    ParseOfFields(dd, mm, yyyy);
  }

  /** str(Timestamp) of a posting date: "YYYY-MM-DD HH:MM:00". */
  function TimestampText(t: Timestamp): (s: string)
    ensures |s| == 19
  {
    Pad4(t.year) + "-" + Pad2(t.month) + "-" + Pad2(t.day) + " " + Pad2(t.hour) + ":" + Pad2(t.minute) + ":00"
  }

  /** Where each field sits in str(Timestamp). */
  lemma TimestampTextFields(t: Timestamp)
    ensures var s := TimestampText(t);
      s[0..4] == Pad4(t.year) && s[5..7] == Pad2(t.month) && s[8..10] == Pad2(t.day) &&
      s[11..13] == Pad2(t.hour) && s[14..16] == Pad2(t.minute)
  {
    var s := TimestampText(t);
    var y, mo, d, h, mi := Pad4(t.year), Pad2(t.month), Pad2(t.day), Pad2(t.hour), Pad2(t.minute);
    assert s == y + ("-" + (mo + ("-" + (d + (" " + (h + (":" + (mi + ":00"))))))));
  }

  /**
   * Two real timestamps with the same str() are the same timestamp: the
   * posting-date part of the identity hash input determines the date.
   */
  lemma TimestampTextInjective(a: Timestamp, b: Timestamp)
    requires Valid(a) && Valid(b) && TimestampText(a) == TimestampText(b)
    ensures a == b
  {
    TimestampTextFields(a);
    TimestampTextFields(b);
    Pad4Injective(a.year, b.year);
    Pad2Injective(a.month, b.month);
    Pad2Injective(a.day, b.day);
    Pad2Injective(a.hour, b.hour);
    Pad2Injective(a.minute, b.minute);
  }

  lemma Pad2Injective(x: nat, y: nat)
    requires x < 100 && y < 100 && Pad2(x) == Pad2(y)
    ensures x == y
  {
    assert x % 100 == x && y % 100 == y;
  }

  lemma Pad4Injective(x: nat, y: nat)
    requires x < 10000 && y < 10000 && Pad4(x) == Pad4(y)
    ensures x == y
  {
    SmallRemainder(x, 10000);
    SmallRemainder(y, 10000);
    assert DecimalValue(Pad4(x)) == DecimalValue(Pad4(y));
  }

  lemma SmallRemainder(x: nat, k: nat)
    requires x < k
    ensures x % k == x
  {
  }
}
