/** `datetime.strptime(text, "%Y-%m-%d")` as CPython's `_strptime` does it:
    the format becomes the regular expression
    `(?P<Y>\d\d\d\d)-(?P<m>1[0-2]|0[1-9]|[1-9])-(?P<d>3[01]|[12]\d|0[1-9]|[1-9]| [1-9])`,
    matched at the start of the text; text left over after the match, or a
    year, month and day that make no date, raise `ValueError`. */
module Strptime {
  import opened Script
  import opened Calendar

  predicate IsDigit(c: char)
  {
    '0' <= c <= '9'
  }

  function DigitValue(c: char): int
    requires IsDigit(c)
  {
    c as int - '0' as int
  }

  /** What one directive matched at the start of the text: the number it
      spells and the number of characters it took. */
  datatype Match = Match(value: int, length: nat)

  /** `%Y`: exactly four digits. */
  function MatchYear(s: string): (r: Option<Match>)
    ensures r.Some? ==> r.value.length == 4 <= |s| && 0 <= r.value.value <= MaxYear
  {
    if |s| >= 4 && IsDigit(s[0]) && IsDigit(s[1]) && IsDigit(s[2]) && IsDigit(s[3]) then
      Some(Match(1000 * DigitValue(s[0]) + 100 * DigitValue(s[1]) + 10 * DigitValue(s[2]) + DigitValue(s[3]), 4))
    else None
  }

  /** `%m`: the alternatives `1[0-2]`, `0[1-9]`, `[1-9]`, tried in this order. */
  function MatchMonth(s: string): (r: Option<Match>)
    ensures r.Some? ==> 1 <= r.value.length <= 2 && r.value.length <= |s| && 1 <= r.value.value <= 12
  {
    if |s| >= 2 && s[0] == '1' && '0' <= s[1] <= '2' then Some(Match(10 + DigitValue(s[1]), 2))
    else if |s| >= 2 && s[0] == '0' && '1' <= s[1] <= '9' then Some(Match(DigitValue(s[1]), 2))
    else if |s| >= 1 && '1' <= s[0] <= '9' then Some(Match(DigitValue(s[0]), 1))
    else None
  }

  /** `%d`: the alternatives `3[01]`, `[12]\d`, `0[1-9]`, `[1-9]`,
      ` [1-9]`, tried in this order. */
  function MatchDay(s: string): (r: Option<Match>)
    ensures r.Some? ==> 1 <= r.value.length <= 2 && r.value.length <= |s| && 1 <= r.value.value <= 31
  {
    if |s| >= 2 && s[0] == '3' && '0' <= s[1] <= '1' then Some(Match(30 + DigitValue(s[1]), 2))
    else if |s| >= 2 && '1' <= s[0] <= '2' && IsDigit(s[1]) then Some(Match(10 * DigitValue(s[0]) + DigitValue(s[1]), 2))
    else if |s| >= 2 && s[0] == '0' && '1' <= s[1] <= '9' then Some(Match(DigitValue(s[1]), 2))
    else if |s| >= 1 && '1' <= s[0] <= '9' then Some(Match(DigitValue(s[0]), 1))
    else if |s| >= 2 && s[0] == ' ' && '1' <= s[1] <= '9' then Some(Match(DigitValue(s[1]), 2))
    else None
  }

  /** `datetime.strptime(text, "%Y-%m-%d")`: the date, or `None` where it
      raises `ValueError`. The month alternatives cannot be traded for one
      another to let the `-` after them match, so trying them in order and
      taking the first is what the regular expression does. */
  function ParseDate(text: string): (r: Option<Date>)
    ensures r.Some? ==> Valid(r.value)
  {
    match MatchYear(text)
    case None => None
    case Some(y) =>
      var t := text[4..];
      if t == [] || t[0] != '-' then None
      else match MatchMonth(t[1..])
        case None => None
        case Some(m) =>
          var u := t[1..][m.length..];
          if u == [] || u[0] != '-' then None
          else match MatchDay(u[1..])
            case None => None
            case Some(d) =>
              if d.length != |u| - 1 then None
              else
                var date := Date(y.value, m.value, d.value);
                if Valid(date) then Some(date) else None
  }

  function DigitChar(n: int): (c: char)
    requires 0 <= n <= 9
    ensures IsDigit(c) && DigitValue(c) == n
  {
    ('0' as int + n) as char
  }

  /** `n` in decimal, zero-padded to two digits. */
  function Padded2(n: int): (r: string)
    requires 0 <= n < 100
    ensures |r| == 2 && IsDigit(r[0]) && IsDigit(r[1]) && 10 * DigitValue(r[0]) + DigitValue(r[1]) == n
  {
    [DigitChar(n / 10), DigitChar(n % 10)]
  }

  /** `n` in decimal, zero-padded to four digits. */
  function Padded4(n: int): (r: string)
    requires 0 <= n < 10000
    ensures |r| == 4 && IsDigit(r[0]) && IsDigit(r[1]) && IsDigit(r[2]) && IsDigit(r[3])
    ensures 1000 * DigitValue(r[0]) + 100 * DigitValue(r[1]) + 10 * DigitValue(r[2]) + DigitValue(r[3]) == n
  {
    var high, low := Padded2(n / 100), Padded2(n % 100);
    assert 100 * (n / 100) + n % 100 == n;
    high + low
  }

  /** `date.isoformat()`: the ISO 8601 calendar date in extended complete
      format, `YYYY-MM-DD`. */
  function IsoText(d: Date): (r: string)
    requires Valid(d)
    ensures |r| == 10
  {
    Padded4(d.year) + "-" + Padded2(d.month) + "-" + Padded2(d.day)
  }

  /** Two digit strings of the same length and value are the same string. */
  lemma DigitsDetermined(a: string, b: string)
    requires |a| == |b| == 2 && IsDigit(a[0]) && IsDigit(a[1]) && IsDigit(b[0]) && IsDigit(b[1])
    requires 10 * DigitValue(a[0]) + DigitValue(a[1]) == 10 * DigitValue(b[0]) + DigitValue(b[1])
    ensures a == b
  {
  }

  /** The only other ten-character spelling `%d` lets through is the
      space-padded day: a ten-character text that is read as a date and has
      no space before its day is that date in ISO 8601 extended complete
      format. */
  lemma TenCharactersAreIso(s: string)
    requires |s| == 10 && s[8] != ' ' && ParseDate(s).Some?
    ensures s == IsoText(ParseDate(s).value)
  {
    var d := ParseDate(s).value;
    var y := MatchYear(s).value;
    var t := s[4..];
    var m := MatchMonth(t[1..]).value;
    var u := t[1..][m.length..];
    var day := MatchDay(u[1..]).value;
    assert m.length == 2 && day.length == 2;
    assert s[5..7] == t[1..][..2];
    assert u[1..] == s[8..];
    DigitsDetermined(s[5..7], Padded2(d.month));
    DigitsDetermined(s[8..10], Padded2(d.day));
    var high, low := Padded2(d.year / 100), Padded2(d.year % 100);
    assert Padded4(d.year) == high + low;
    DigitsDetermined(s[..2], high);
    DigitsDetermined(s[2..4], low);
    assert s == s[..2] + s[2..4] + "-" + s[5..7] + "-" + s[8..10];
  }

  /** The year, month and day written zero-padded as `YYYY-MM-DD`, valid
      date or not. */
  function Spelled(year: int, month: int, day: int): (r: string)
    requires 0 <= year < 10000 && 0 <= month < 100 && 0 <= day < 100
    ensures |r| == 10
  {
    Padded4(year) + "-" + Padded2(month) + "-" + Padded2(day)
  }

  /** `%m` on two digits and what follows them: it takes both exactly when
      they spell a month, and it takes one only before a second digit. */
  lemma MonthOfDigits(mm: string, rest: string, month: int)
    requires |mm| == 2 && IsDigit(mm[0]) && IsDigit(mm[1]) && 10 * DigitValue(mm[0]) + DigitValue(mm[1]) == month
    ensures var r := MatchMonth(mm + rest);
            if 1 <= month <= 12 then r == Some(Match(month, 2))
            else r.None? || r.value.length == 1
  {
    assert (mm + rest)[0] == mm[0] && (mm + rest)[1] == mm[1];
  }

  /** `%d` on exactly two digits: it takes both exactly when they are a
      day number from 1 to 31. */
  lemma DayOfDigits(dd: string, rest: string, day: int)
    requires |dd| == 2 && IsDigit(dd[0]) && IsDigit(dd[1]) && 10 * DigitValue(dd[0]) + DigitValue(dd[1]) == day
    ensures var r := MatchDay(dd + rest);
            if 1 <= day <= 31 then r == Some(Match(day, 2))
            else r.None? || r.value.length == 1
  {
    assert (dd + rest)[0] == dd[0] && (dd + rest)[1] == dd[1];
  }

  /** A zero-padded year, month and day is read back exactly when it is a
      valid date, and then as that date: month 13, day 0, February 29 of a
      year that is not a leap year and year 0 are all refused. */
  lemma ParseSpelled(year: int, month: int, day: int)
    requires 0 <= year < 10000 && 0 <= month < 100 && 0 <= day < 100
    ensures ParseDate(Spelled(year, month, day)) ==
            if Valid(Date(year, month, day)) then Some(Date(year, month, day)) else None
  {
    var s := Spelled(year, month, day);
    var mm, dd := Padded2(month), Padded2(day);
    assert MatchYear(s) == Some(Match(year, 4));
    var t := s[4..];
    assert t == "-" + mm + "-" + dd;
    assert t[1..] == mm + ("-" + dd);
    MonthOfDigits(mm, "-" + dd, month);
    var m := MatchMonth(t[1..]);
    if m.Some? {
      var u := t[1..][m.value.length..];
      if m.value.length == 2 {
        assert u == "-" + dd;
        assert u[1..] == dd + "";
        DayOfDigits(dd, "", day);
      } else {
        assert u[0] == mm[1];
      }
    }
  }

  /** Every valid date written in ISO 8601 extended complete format is read
      back as itself. */
  lemma ParseIso(d: Date)
    requires Valid(d)
    ensures ParseDate(IsoText(d)) == Some(d)
  {
    ParseSpelled(d.year, d.month, d.day);
    assert IsoText(d) == Spelled(d.year, d.month, d.day);
  }

  /** Text after the day is refused ("unconverted data remains"). */
  lemma TrailingTextRefused(d: Date, rest: string)
    requires Valid(d) && rest != []
    ensures ParseDate(IsoText(d) + rest) == None
  {
    var s := IsoText(d) + rest;
    var mm, dd := Padded2(d.month), Padded2(d.day);
    assert MatchYear(s) == Some(Match(d.year, 4));
    var t := s[4..];
    assert t == "-" + mm + "-" + dd + rest;
    assert t[1..] == mm + ("-" + dd + rest);
    MonthOfDigits(mm, "-" + dd + rest, d.month);
    var u := t[1..][2..];
    assert u == "-" + dd + rest;
    assert u[1..] == dd + rest;
    DayOfDigits(dd, rest, d.day);
  }

  /** The month and the day may also be written with one digit, as `%m`
      and `%d` accept them without their leading zero. */
  lemma SingleDigitsAccepted(d: Date)
    requires Valid(d) && d.month <= 9 && d.day <= 9
    ensures ParseDate(Padded4(d.year) + "-" + [DigitChar(d.month)] + "-" + [DigitChar(d.day)]) == Some(d)
  {
    var s := Padded4(d.year) + "-" + [DigitChar(d.month)] + "-" + [DigitChar(d.day)];
    assert MatchYear(s) == Some(Match(d.year, 4));
    var t := s[4..];
    assert t[1..] == [DigitChar(d.month)] + "-" + [DigitChar(d.day)];
    assert MatchMonth(t[1..]) == Some(Match(d.month, 1));
    var u := t[1..][1..];
    assert u == "-" + [DigitChar(d.day)];
    assert u[1..] == [DigitChar(d.day)];
  }
}
