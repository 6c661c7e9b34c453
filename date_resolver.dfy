/**
 * The "Actual Date" column: the first match of
 * "(\d{2}-\d{2}-\d{4}) OM (\d{2}\.\d{2}) UUR" in the description, read as
 * "%d-%m-%Y %H.%M"; when there is no match, or the first match is not a real
 * date and time (pandas coerces it to NaT), the posting date at midnight.
 */
module DateResolver {
  import opened Wrappers
  import opened Calendar

  /** Matches have a fixed length: "DD-MM-YYYY OM HH.MM UUR". */
  const MatchLength: nat := 23

  /** The 23 characters m spell the pattern: two digits, '-', two digits, '-', four digits, " OM ", two digits, '.', two digits, " UUR". */
  predicate IsMatchText(m: string)
    requires |m| == MatchLength
  {
    IsDigit(m[0]) && IsDigit(m[1]) && m[2] == '-' &&
    IsDigit(m[3]) && IsDigit(m[4]) && m[5] == '-' &&
    IsDigit(m[6]) && IsDigit(m[7]) && IsDigit(m[8]) && IsDigit(m[9]) &&
    m[10] == ' ' && m[11] == 'O' && m[12] == 'M' && m[13] == ' ' &&
    IsDigit(m[14]) && IsDigit(m[15]) && m[16] == '.' && IsDigit(m[17]) && IsDigit(m[18]) &&
    m[19] == ' ' && m[20] == 'U' && m[21] == 'U' && m[22] == 'R'
  }

  /** The pattern matches `s` at position i. */
  predicate MatchesAt(s: string, i: nat)
  {
    i + MatchLength <= |s| && IsMatchText(s[i..i + MatchLength])
  }

  /** The leftmost match at or after position i. */
  function FirstMatchFrom(s: string, i: nat): (r: Option<nat>)
    ensures r.Some? ==> i <= r.value && MatchesAt(s, r.value)
    ensures r.Some? ==> forall j :: i <= j < r.value ==> !MatchesAt(s, j)
    ensures r.None? ==> forall j :: i <= j ==> !MatchesAt(s, j)
    decreases |s| - i
  {
    if i + MatchLength > |s| then None
    else if MatchesAt(s, i) then Some(i)
    else FirstMatchFrom(s, i + 1)
  }

  /** Series.str.extract: the leftmost match, if any. */
  function FirstMatch(s: string): Option<nat>
  {
    FirstMatchFrom(s, 0)
  }

  /** The two digits at s[i], s[i + 1] as a number. */
  function TwoDigits(s: string, i: nat): nat
    requires i + 2 <= |s| && IsDigit(s[i]) && IsDigit(s[i + 1])
  {
    DigitValue(s[i]) * 10 + DigitValue(s[i + 1])
  }

  /** The timestamp written in a match at position i: day, month, year, hour, minute. */
  function StampOf(m: string): Timestamp
    requires |m| == MatchLength && IsMatchText(m)
  {
    Timestamp(TwoDigits(m, 6) * 100 + TwoDigits(m, 8), TwoDigits(m, 3), TwoDigits(m, 0),
              TwoDigits(m, 14), TwoDigits(m, 17))
  }

  function StampAt(s: string, i: nat): Timestamp
    requires MatchesAt(s, i)
  {
    StampOf(s[i..i + MatchLength])
  }

  /**
   * The resolved actual date of a transaction (utils.py:60-61): only the
   * first match is considered; an invalid one falls back to the posting date.
   */
  function ActualDate(description: string, datum: Timestamp): Timestamp
  {
    match FirstMatch(description)
    case None => datum
    case Some(i) => if Valid(StampAt(description, i)) then StampAt(description, i) else datum
  }

  /** i is the position of the leftmost match. */
  predicate IsFirstMatch(s: string, i: nat)
  {
    MatchesAt(s, i) && forall j :: 0 <= j < i ==> !MatchesAt(s, j)
  }

  lemma FirstMatchIsLeftmost(s: string, i: nat)
    requires IsFirstMatch(s, i)
    ensures FirstMatch(s) == Some(i)
  {
    var r := FirstMatch(s);
    assert r.Some?;
    assert !(r.value < i);
    assert !(i < r.value);
  }

  /**
   * The actual date is the first match's timestamp when that is a real date
   * and time, and the posting date otherwise (utils.py:60-61).
   */
  lemma ActualDateOfFirstMatch(description: string, datum: Timestamp, i: nat)
    requires IsFirstMatch(description, i)
    ensures Valid(StampAt(description, i)) ==> ActualDate(description, datum) == StampAt(description, i)
    ensures !Valid(StampAt(description, i)) ==> ActualDate(description, datum) == datum
  {
    FirstMatchIsLeftmost(description, i);
  }

  /** Without any match the actual date is the posting date. */
  lemma ActualDateWithoutMatch(description: string, datum: Timestamp)
    requires forall j :: 0 <= j ==> !MatchesAt(description, j)
    ensures ActualDate(description, datum) == datum
  {
  }

  /** A valid posting date gives a valid actual date. */
  lemma ActualDateValid(description: string, datum: Timestamp)
    requires Valid(datum)
    ensures Valid(ActualDate(description, datum))
  {
  }

  lemma MatchesAtPrefix(p: string, u: string, j: nat)
    requires j + MatchLength <= |p|
    ensures MatchesAt(p + u, j) == MatchesAt(p, j)
    ensures MatchesAt(p, j) ==> StampAt(p + u, j) == StampAt(p, j)
  {
    assert (p + u)[j..j + MatchLength] == p[j..j + MatchLength];
  }

  /**
   * Later matches are ignored: once the text up to and including a match is
   * fixed, what follows it cannot change the actual date (utils.py:60).
   */
  lemma LaterMatchesIgnored(p: string, u: string, v: string, datum: Timestamp)
    requires exists i :: MatchesAt(p, i)
    ensures ActualDate(p + u, datum) == ActualDate(p + v, datum)
  {
    var w :| MatchesAt(p, w);
    var k := FirstMatch(p);
    assert k.Some?;
    var i := k.value;
    forall x | x in [u, v]
      ensures IsFirstMatch(p + x, i) && StampAt(p + x, i) == StampAt(p, i)
    {
      MatchesAtPrefix(p, x, i);
      forall j | 0 <= j < i
        ensures !MatchesAt(p + x, j)
      {
        MatchesAtPrefix(p, x, j);
      }
    }
    FirstMatchIsLeftmost(p + u, i);
    FirstMatchIsLeftmost(p + v, i);
  }

  // ------------------------------------------------------------- examples

  /** "15-03-2023 OM 14.30 UUR" resolves to 2023-03-15 14:30. */
  lemma ExampleEmbeddedTimestamp(datum: Timestamp)
    ensures ActualDate("15-03-2023 OM 14.30 UUR", datum) == Timestamp(2023, 3, 15, 14, 30)
  {
    var m := "15-03-2023 OM 14.30 UUR";
    assert m[0..MatchLength] == m;
    assert IsMatchText(m) && StampOf(m) == Timestamp(2023, 3, 15, 14, 30);
    ActualDateOfFirstMatch(m, datum, 0);
  }

  lemma UnanchoredMatchText()
    ensures IsMatchText("23-04-2023 OM 10.00 UUR")
    ensures StampOf("23-04-2023 OM 10.00 UUR") == Timestamp(2023, 4, 23, 10, 0)
  {
  }

  /** The pattern is not anchored: in "123-04-2023 OM 10.00 UUR" the match starts at "23-04-2023". */
  lemma ExampleUnanchored(datum: Timestamp)
    ensures ActualDate("1" + "23-04-2023 OM 10.00 UUR", datum) == Timestamp(2023, 4, 23, 10, 0)
  {
    var m := "23-04-2023 OM 10.00 UUR";
    var s := "1" + m;
    assert s[1..1 + MatchLength] == m;
    UnanchoredMatchText();
    assert !MatchesAt(s, 0) by {
      assert s[0..MatchLength][2] == s[2] == m[1] == '3';
    }
    assert IsFirstMatch(s, 1);
    ActualDateOfFirstMatch(s, datum, 1);
  }

  lemma InvalidFirstMatchText()
    ensures IsMatchText("29-02-2023 OM 10.00 UUR")
    ensures StampOf("29-02-2023 OM 10.00 UUR") == Timestamp(2023, 2, 29, 10, 0)
    ensures !Valid(Timestamp(2023, 2, 29, 10, 0))
  {
    assert !IsLeapYear(2023);
  }

  /** An invalid first match falls back to the posting date; the valid later one is not tried. */
  lemma ExampleInvalidFirstMatch(datum: Timestamp)
    ensures ActualDate("29-02-2023 OM 10.00 UUR 01-03-2023 OM 10.00 UUR", datum) == datum
  {
    var m := "29-02-2023 OM 10.00 UUR";
    var s := "29-02-2023 OM 10.00 UUR 01-03-2023 OM 10.00 UUR";
    assert s[0..MatchLength] == m;
    InvalidFirstMatchText();
    ActualDateOfFirstMatch(s, datum, 0);
  }

  /** Hour 24 is not a time of day. */
  lemma ExampleHour24(datum: Timestamp)
    ensures ActualDate("01-03-2024 OM 24.00 UUR", datum) == datum
  {
    var m := "01-03-2024 OM 24.00 UUR";
    assert m[0..MatchLength] == m;
    assert IsMatchText(m) && StampOf(m) == Timestamp(2024, 3, 1, 24, 0);
    ActualDateOfFirstMatch(m, datum, 0);
  }
}
