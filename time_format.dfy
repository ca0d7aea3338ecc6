/**
  The two directory-name formats of the backup tree and Python's `strftime` / `strptime`
  restricted to them: `%Y-%m-%d_%H-%M-%S` (second resolution) and `%Y-%m-%d` (day
  resolution).

  `strptime` turns the format into a regular expression, matches it at the start of the
  name and fails when text remains. Each directive's alternation lists its two-character
  forms before its one-character form, and no directive's text contains `-` or `_`; so a
  directive followed by a separator takes exactly the text up to the first occurrence of
  that separator, and the last directive takes the whole rest of the name. The parsers
  below split the name that way and then check each piece against its directive.
*/
module TimeFormat {
  import opened Options
  import opened CivilTime

  predicate IsDigit(c: char) {
    '0' <= c <= '9'
  }

  function DigitValue(c: char): int
    requires IsDigit(c)
  {
    c as int - '0' as int
  }

  function DigitChar(n: int): (c: char)
    requires 0 <= n < 10
    ensures IsDigit(c) && DigitValue(c) == n
  {
    ('0' as int + n) as char
  }

  predicate AllDigits(s: string) {
    forall i :: 0 <= i < |s| ==> IsDigit(s[i])
  }

  /** The number a string of decimal digits spells. */
  function DecimalValue(s: string): nat
    requires AllDigits(s)
  {
    if s == [] then 0 else DecimalValue(s[..|s| - 1]) * 10 + DigitValue(s[|s| - 1])
  }

  /** `DecimalValue` written out for the lengths the directives use. */
  lemma ShortDecimalValues(s: string)
    ensures AllDigits(s) && |s| == 1 ==> DecimalValue(s) == DigitValue(s[0])
    ensures AllDigits(s) && |s| == 2 ==> DecimalValue(s) == DigitValue(s[0]) * 10 + DigitValue(s[1])
    ensures AllDigits(s) && |s| == 4 ==>
              DecimalValue(s) == DigitValue(s[0]) * 1000 + DigitValue(s[1]) * 100
                                 + DigitValue(s[2]) * 10 + DigitValue(s[3])
  {
    if AllDigits(s) && |s| >= 1 {
      if |s| == 1 {
        assert s[..0] == [];
      } else if |s| == 2 {
        assert s[..1][..0] == [];
        assert s[..1][0] == s[0];
      } else if |s| == 4 {
        var a, b, c := s[..3], s[..2], s[..1];
        assert a[..2] == b && b[..1] == c && c[..0] == [];
        assert a[2] == s[2] && b[1] == s[1] && c[0] == s[0];
      }
    }
  }

  /** `%m`, `%d`, `%H`, `%M`, `%S` in `strftime`: two digits, zero-padded. */
  function Pad2(n: int): (s: string)
    requires 0 <= n < 100
    ensures |s| == 2 && AllDigits(s)
    ensures DigitValue(s[0]) * 10 + DigitValue(s[1]) == n
  {
    [DigitChar(n / 10), DigitChar(n % 10)]
  }

  /** `%Y` in `strftime`: four digits, zero-padded. */
  function Pad4(n: int): (s: string)
    requires 0 <= n < 10000
    ensures |s| == 4 && AllDigits(s)
    ensures DigitValue(s[0]) * 1000 + DigitValue(s[1]) * 100 + DigitValue(s[2]) * 10
            + DigitValue(s[3]) == n
  {
    Pad2(n / 100) + Pad2(n % 100)
  }

  /** `t.strftime('%Y-%m-%d_%H-%M-%S')`. */
  function SecondsStamp(t: Instant): (s: string)
    ensures |s| == 19
    ensures s[4] == '-' && s[7] == '-' && s[10] == '_' && s[13] == '-' && s[16] == '-'
  {
    Pad4(t.year) + "-" + Pad2(t.month) + "-" + Pad2(t.day) + "_"
      + Pad2(t.hour) + "-" + Pad2(t.minute) + "-" + Pad2(t.second)
  }

  /** `t.strftime('%Y-%m-%d')`. */
  function DayStamp(t: Instant): (s: string)
    ensures |s| == 10 && s[4] == '-' && s[7] == '-' && '_' !in s
  {
    Pad4(t.year) + "-" + Pad2(t.month) + "-" + Pad2(t.day)
  }

  /** Splits `s` at the first occurrence of `c`. */
  function SplitFirst(s: string, c: char): (r: Option<(string, string)>)
    ensures r.Some? ==> s == r.value.0 + [c] + r.value.1 && c !in r.value.0
    ensures r.None? <==> c !in s
  {
    if |s| == 0 then None
    else if s[0] == c then Some(([], s[1..]))
    else match SplitFirst(s[1..], c)
      case None => None
      case Some(p) => Some(([s[0]] + p.0, p.1))
  }

  lemma {:induction false} SplitFirstAt(a: string, c: char, b: string)
    requires c !in a
    ensures SplitFirst(a + [c] + b, c) == Some((a, b))
  {
    if a != [] {
      var s := a + [c] + b;
      assert s[0] == a[0] && a[0] != c;
      assert s[1..] == a[1..] + [c] + b;
      SplitFirstAt(a[1..], c, b);
      assert [a[0]] + a[1..] == a;
    } else {
      assert (a + [c] + b)[1..] == b;
    }
  }

  /** A numeric directive's text: one digit at least `lo`, or two digits in `lo..hi`. */
  function NumberToken(t: string, lo: int, hi: int): (r: Option<int>)
    ensures r.Some? <==> && (|t| == 1 || |t| == 2) && AllDigits(t) && lo <= DecimalValue(t)
                         && (|t| == 1 || DecimalValue(t) <= hi)
    ensures r.Some? ==> r.value == DecimalValue(t)
    ensures r.Some? ==> lo <= r.value && (r.value <= 9 || r.value <= hi)
  {
    ShortDecimalValues(t);
    if |t| == 1 && IsDigit(t[0]) && lo <= DigitValue(t[0]) then
      Some(DigitValue(t[0]))
    else if |t| == 2 && IsDigit(t[0]) && IsDigit(t[1])
            && lo <= DigitValue(t[0]) * 10 + DigitValue(t[1]) <= hi then
      Some(DigitValue(t[0]) * 10 + DigitValue(t[1]))
    else
      None
  }

  /** `%Y` in `strptime`: exactly four digits. */
  function YearToken(t: string): (r: Option<int>)
    ensures r.Some? <==> |t| == 4 && AllDigits(t)
    ensures r.Some? ==> r.value == DecimalValue(t)
    ensures r.Some? ==> 0 <= r.value <= 9999
  {
    ShortDecimalValues(t);
    if |t| == 4 && AllDigits(t) then
      Some(DigitValue(t[0]) * 1000 + DigitValue(t[1]) * 100 + DigitValue(t[2]) * 10
           + DigitValue(t[3]))
    else
      None
  }

  /** `%m` in `strptime`: `1[0-2]|0[1-9]|[1-9]`. */
  function MonthToken(t: string): (r: Option<int>)
    ensures r.Some? <==> (|t| == 1 || |t| == 2) && AllDigits(t) && 1 <= DecimalValue(t) <= 12
    ensures r.Some? ==> r.value == DecimalValue(t)
  {
    NumberToken(t, 1, 12)
  }

  /** `%d` in `strptime`: `3[01]|[12]\d|0[1-9]|[1-9]| [1-9]` (a space-padded day too). */
  function DayToken(t: string): (r: Option<int>)
    ensures r.Some? <==> || ((|t| == 1 || |t| == 2) && AllDigits(t) && 1 <= DecimalValue(t) <= 31)
                         || (|t| == 2 && t[0] == ' ' && IsDigit(t[1]) && t[1] != '0')
    ensures r.Some? && AllDigits(t) ==> r.value == DecimalValue(t)
    ensures r.Some? && !AllDigits(t) ==> r.value == DigitValue(t[1])
    ensures r.Some? ==> 1 <= r.value <= 31
  {
    if |t| == 2 && t[0] == ' ' && IsDigit(t[1]) && t[1] != '0' then Some(DigitValue(t[1]))
    else NumberToken(t, 1, 31)
  }

  /** `%H` in `strptime`: `2[0-3]|[0-1]\d|\d`. */
  function HourToken(t: string): (r: Option<int>)
    ensures r.Some? <==> (|t| == 1 || |t| == 2) && AllDigits(t) && DecimalValue(t) <= 23
    ensures r.Some? ==> r.value == DecimalValue(t)
  {
    NumberToken(t, 0, 23)
  }

  /** `%M` in `strptime`: `[0-5]\d|\d`. */
  function MinuteToken(t: string): (r: Option<int>)
    ensures r.Some? <==> (|t| == 1 || |t| == 2) && AllDigits(t) && DecimalValue(t) <= 59
    ensures r.Some? ==> r.value == DecimalValue(t)
  {
    NumberToken(t, 0, 59)
  }

  /** `%S` in `strptime`: `6[0-1]|[0-5]\d|\d` (60 and 61 match, the constructor refuses them). */
  function SecondToken(t: string): (r: Option<int>)
    ensures r.Some? <==> (|t| == 1 || |t| == 2) && AllDigits(t) && DecimalValue(t) <= 61
    ensures r.Some? ==> r.value == DecimalValue(t)
  {
    NumberToken(t, 0, 61)
  }

  /** The `datetime` constructor: refuses year 0, a day past the month's end, second 60 or 61. */
  function MakeInstant(y: int, m: int, d: int, hh: int, mm: int, ss: int): (r: Option<Instant>)
    ensures r.Some? <==> Valid(DateTime(y, m, d, hh, mm, ss, 0))
    ensures r.Some? ==> r.value == DateTime(y, m, d, hh, mm, ss, 0)
  {
    var t := DateTime(y, m, d, hh, mm, ss, 0);
    if Valid(t) then Some(t) else None
  }

  /** `datetime.strptime(name, '%Y-%m-%d_%H-%M-%S')`, `None` where Python raises `ValueError`. */
  function ParseSeconds(name: string): (r: Option<Instant>)
    ensures r.Some? ==> Truncate(r.value) == r.value && '_' in name
  {
    var p1 :- SplitFirst(name, '-');
    var p2 :- SplitFirst(p1.1, '-');
    var p3 :- SplitFirst(p2.1, '_');
    var p4 :- SplitFirst(p3.1, '-');
    var p5 :- SplitFirst(p4.1, '-');
    var year :- YearToken(p1.0);
    var month :- MonthToken(p2.0);
    var day :- DayToken(p3.0);
    var hour :- HourToken(p4.0);
    var minute :- MinuteToken(p5.0);
    var second :- SecondToken(p5.1);
    MakeInstant(year, month, day, hour, minute, second)
  }

  /** `datetime.strptime(name, '%Y-%m-%d')`: midnight of the named day. */
  function ParseDay(name: string): (r: Option<Instant>)
    ensures r.Some? ==> Midnight(r.value) == r.value
  {
    var p1 :- SplitFirst(name, '-');
    var p2 :- SplitFirst(p1.1, '-');
    var year :- YearToken(p1.0);
    var month :- MonthToken(p2.0);
    var day :- DayToken(p2.1);
    MakeInstant(year, month, day, 0, 0, 0)
  }

  datatype Format = SecondsFormat | DayFormat

  /** The `date_formats` list of the sweep, tried in this order. */
  const DATE_FORMATS: seq<Format> := [SecondsFormat, DayFormat]

  function StrpTime(name: string, format: Format): Option<Instant> {
    match format
    case SecondsFormat => ParseSeconds(name)
    case DayFormat => ParseDay(name)
  }

  /** The date of a backup directory: the result of the first format in `formats` that parses. */
  function FirstParse(name: string, formats: seq<Format>): (r: Option<Instant>)
    ensures r.None? <==> forall j :: 0 <= j < |formats| ==> StrpTime(name, formats[j]).None?
  {
    if formats == [] then None
    else if StrpTime(name, formats[0]).Some? then StrpTime(name, formats[0])
    else FirstParse(name, formats[1..])
  }

  function ParseBackupName(name: string): Option<Instant> {
    FirstParse(name, DATE_FORMATS)
  }

  /** The sweep's format-trial loop: `dir_date` is set by the first `strptime` that succeeds. */
  method ParseDirDate(name: string) returns (dirDate: Option<Instant>)
    ensures dirDate == ParseBackupName(name)
    ensures dirDate.Some? ==> dirDate == ParseSeconds(name) || dirDate == ParseDay(name)
  {
    dirDate := None;
    var i := 0;
    while i < |DATE_FORMATS|
      invariant 0 <= i <= |DATE_FORMATS|
      invariant dirDate.None?
      invariant FirstParse(name, DATE_FORMATS) == FirstParse(name, DATE_FORMATS[i..])
    {
      var parsed := StrpTime(name, DATE_FORMATS[i]);
      if parsed.Some? {
        dirDate := parsed;
        break;
      }
      i := i + 1;
    }
  }

  lemma Pad2Token(n: int, lo: int, hi: int)
    requires 0 <= lo <= n <= hi && n < 100
    ensures NumberToken(Pad2(n), lo, hi) == Some(n)
  {
  }

  lemma Pad2Day(n: int)
    requires 1 <= n <= 31
    ensures DayToken(Pad2(n)) == Some(n)
  {
    Pad2Token(n, 1, 31);
  }

  lemma Pad4Year(n: int)
    requires 0 <= n < 10000
    ensures YearToken(Pad4(n)) == Some(n)
  {
  }

  lemma FirstParseOfFormats(name: string)
    ensures ParseBackupName(name)
            == if ParseSeconds(name).Some? then ParseSeconds(name) else ParseDay(name)
  {
    assert DATE_FORMATS[0] == SecondsFormat && DATE_FORMATS[1..] == [DayFormat];
    assert [DayFormat][1..] == [];
    assert FirstParse(name, [DayFormat]) == ParseDay(name);
  }

  /** A second-resolution name parses back, under the first format, to its time without microseconds. */
  lemma SecondsRoundTrip(t: Instant)
    ensures ParseSeconds(SecondsStamp(t)) == Some(Truncate(t))
    ensures ParseBackupName(SecondsStamp(t)) == Some(Truncate(t))
  {
    var y, mo, d, h, mi, s := Pad4(t.year), Pad2(t.month), Pad2(t.day), Pad2(t.hour),
                              Pad2(t.minute), Pad2(t.second);
    var r5 := s;
    var r4 := mi + "-" + r5;
    var r3 := h + "-" + r4;
    var r2 := d + "_" + r3;
    var r1 := mo + "-" + r2;
    assert SecondsStamp(t) == y + "-" + r1;
    assert '-' !in y && '-' !in mo && '_' !in d && '-' !in h && '-' !in mi by {
      assert forall x :: x in y + mo + d + h + mi ==> IsDigit(x);
    }
    SplitFirstAt(y, '-', r1);
    SplitFirstAt(mo, '-', r2);
    SplitFirstAt(d, '_', r3);
    SplitFirstAt(h, '-', r4);
    SplitFirstAt(mi, '-', r5);
    Pad4Year(t.year);
    Pad2Token(t.month, 1, 12);
    Pad2Day(t.day);
    Pad2Token(t.hour, 0, 23);
    Pad2Token(t.minute, 0, 59);
    Pad2Token(t.second, 0, 61);
    assert ParseSeconds(SecondsStamp(t)) == MakeInstant(t.year, t.month, t.day, t.hour, t.minute, t.second);
    FirstParseOfFormats(SecondsStamp(t));
  }

  /** A day-resolution name fails the first format and parses under the second to its midnight. */
  lemma DayRoundTrip(t: Instant)
    ensures ParseSeconds(DayStamp(t)) == None
    ensures ParseDay(DayStamp(t)) == Some(Midnight(t))
    ensures ParseBackupName(DayStamp(t)) == Some(Midnight(t))
  {
    var y, mo, d := Pad4(t.year), Pad2(t.month), Pad2(t.day);
    var r1 := mo + "-" + d;
    assert DayStamp(t) == y + "-" + r1;
    assert '-' !in y && '-' !in mo && '_' !in d by {
      assert forall x :: x in y + mo + d ==> IsDigit(x);
    }
    SplitFirstAt(y, '-', r1);
    SplitFirstAt(mo, '-', d);
    assert SplitFirst(d, '_') == None;
    Pad4Year(t.year);
    Pad2Token(t.month, 1, 12);
    Pad2Day(t.day);
    FirstParseOfFormats(DayStamp(t));
  }

  /** Two second-resolution names are equal exactly when the runs fall in the same second. */
  lemma SecondsStampCollision(t1: Instant, t2: Instant)
    ensures SecondsStamp(t1) == SecondsStamp(t2) <==> Truncate(t1) == Truncate(t2)
  {
    SecondsRoundTrip(t1);
    SecondsRoundTrip(t2);
  }

  /** Two day-resolution names are equal exactly when the runs fall on the same day. */
  lemma DayStampCollision(t1: Instant, t2: Instant)
    ensures DayStamp(t1) == DayStamp(t2) <==> Midnight(t1) == Midnight(t2)
  {
    DayRoundTrip(t1);
    DayRoundTrip(t2);
  }

  /** The sample second-resolution name dates to 2023-01-01 10:00:00. */
  lemma SampleSecondsName()
    ensures ParseBackupName("2023-01-01_10-00-00") == Some(DateTime(2023, 1, 1, 10, 0, 0, 0))
  {
    var t: Instant := DateTime(2023, 1, 1, 10, 0, 0, 0);
    assert SecondsStamp(t) == "2023-01-01_10-00-00" by {
      assert Pad4(2023) == "2023" by {
        assert Pad2(20) == "20" && Pad2(23) == "23";
      }
      assert Pad2(1) == "01" && Pad2(10) == "10" && Pad2(0) == "00";
    }
    SecondsRoundTrip(t);
  }

  /** The sample day-resolution name dates to midnight of 2023-01-01. */
  lemma SampleDayName()
    ensures ParseBackupName("2023-01-01") == Some(DateTime(2023, 1, 1, 0, 0, 0, 0))
  {
    var t: Instant := DateTime(2023, 1, 1, 0, 0, 0, 0);
    assert DayStamp(t) == "2023-01-01" by {
      assert Pad4(2023) == "2023" by {
        assert Pad2(20) == "20" && Pad2(23) == "23";
      }
      assert Pad2(1) == "01";
    }
    DayRoundTrip(t);
  }

  /** How `ParseDay` reads a name with two dashes: year, month and day pieces, checked in turn. */
  lemma {:induction false} ParseDayPieces(y: string, m: string, d: string)
    requires '-' !in y && '-' !in m
    ensures ParseDay(y + "-" + m + "-" + d)
            == if YearToken(y).Some? && MonthToken(m).Some? && DayToken(d).Some? then
                 MakeInstant(YearToken(y).value, MonthToken(m).value, DayToken(d).value, 0, 0, 0)
               else None
  {
    assert y + "-" + m + "-" + d == y + ['-'] + (m + "-" + d);
    SplitFirstAt(y, '-', m + "-" + d);
    SplitFirstAt(m, '-', d);
  }

  /** How `ParseSeconds` reads a name with its five separators: six pieces, checked in turn. */
  lemma {:induction false} ParseSecondsPieces(y: string, m: string, d: string, h: string, mi: string, s: string)
    requires '-' !in y && '-' !in m && '_' !in d && '-' !in h && '-' !in mi
    ensures ParseSeconds(y + "-" + m + "-" + d + "_" + h + "-" + mi + "-" + s)
            == if && YearToken(y).Some? && MonthToken(m).Some? && DayToken(d).Some?
                  && HourToken(h).Some? && MinuteToken(mi).Some? && SecondToken(s).Some? then
                 MakeInstant(YearToken(y).value, MonthToken(m).value, DayToken(d).value,
                             HourToken(h).value, MinuteToken(mi).value, SecondToken(s).value)
               else None
  {
    var r4 := mi + "-" + s;
    var r3 := h + "-" + r4;
    var r2 := d + "_" + r3;
    var r1 := m + "-" + r2;
    assert y + "-" + m + "-" + d + "_" + h + "-" + mi + "-" + s == y + "-" + r1;
    SplitFirstAt(y, '-', r1);
    SplitFirstAt(m, '-', r2);
    SplitFirstAt(d, '_', r3);
    SplitFirstAt(h, '-', r4);
    SplitFirstAt(mi, '-', s);
  }

  /** As in Python, the time fields need not be zero-padded either. */
  lemma SampleUnpaddedSecondsName(name: string)
    requires name == "2023-1-5_1-2-3"
    ensures ParseBackupName(name) == Some(DateTime(2023, 1, 5, 1, 2, 3, 0))
  {
    assert name == "2023" + "-" + "1" + "-" + "5" + "_" + "1" + "-" + "2" + "-" + "3";
    assert YearToken("2023") == Some(2023) by { }
    assert MonthToken("1") == Some(1) by { }
    assert DayToken("5") == Some(5) by { }
    assert HourToken("1") == Some(1) by { }
    assert MinuteToken("2") == Some(2) by { }
    assert SecondToken("3") == Some(3) by { }
    assert Valid(DateTime(2023, 1, 5, 1, 2, 3, 0)) by { }
    ParseSecondsPieces("2023", "1", "5", "1", "2", "3");
    FirstParseOfFormats(name);
  }

  /** A leap second matches `%S` but is refused by the `datetime` constructor. */
  lemma SampleLeapSecond(name: string)
    requires name == "2023-01-01_10-00-60"
    ensures ParseSeconds(name) == None
  {
    assert name == "2023" + "-" + "01" + "-" + "01" + "_" + "10" + "-" + "00" + "-" + "60";
    assert SecondToken("60") == Some(60) by { }
    ParseSecondsPieces("2023", "01", "01", "10", "00", "60");
  }

  /** A name with two dashes and no underscore after them fails the second-resolution format. */
  lemma {:induction false} NoUnderscoreNoSeconds(y: string, m: string, d: string)
    requires '-' !in y && '-' !in m && '_' !in d
    ensures ParseSeconds(y + "-" + m + "-" + d) == None
  {
    assert y + "-" + m + "-" + d == y + ['-'] + (m + "-" + d);
    SplitFirstAt(y, '-', m + "-" + d);
    SplitFirstAt(m, '-', d);
  }

  /** A name that is not a date parses under neither format. */
  lemma SampleUndatedName(name: string)
    requires name == "not-a-date"
    ensures ParseBackupName(name) == None
  {
    assert name == "not" + "-" + "a" + "-" + "date";
    ParseDayPieces("not", "a", "date");
    NoUnderscoreNoSeconds("not", "a", "date");
    FirstParseOfFormats(name);
  }

  /** A name with two dashes and valid pieces parses, under the second format, to that day's midnight. */
  lemma DayNameParses(y: string, m: string, d: string, year: int, month: int, day: int)
    requires '-' !in y && '-' !in m && '_' !in d
    requires YearToken(y) == Some(year) && MonthToken(m) == Some(month) && DayToken(d) == Some(day)
    requires Valid(DateTime(year, month, day, 0, 0, 0, 0))
    ensures ParseBackupName(y + "-" + m + "-" + d) == Some(DateTime(year, month, day, 0, 0, 0, 0))
  {
    ParseDayPieces(y, m, d);
    NoUnderscoreNoSeconds(y, m, d);
    FirstParseOfFormats(y + "-" + m + "-" + d);
  }

  /** As in Python, fields need not be zero-padded. */
  lemma SampleUnpaddedName(name: string)
    requires name == "2023-1-5"
    ensures ParseBackupName(name) == Some(DateTime(2023, 1, 5, 0, 0, 0, 0))
  {
    assert name == "2023" + "-" + "1" + "-" + "5";
    assert YearToken("2023") == Some(2023) by { }
    assert MonthToken("1") == Some(1) && DayToken("5") == Some(5) by { }
    assert Valid(DateTime(2023, 1, 5, 0, 0, 0, 0)) by { }
    DayNameParses("2023", "1", "5", 2023, 1, 5);
  }

  /** An impossible calendar day is refused. */
  lemma SampleImpossibleDay(name: string)
    requires name == "2023-02-30"
    ensures ParseBackupName(name) == None
  {
    assert name == "2023" + "-" + "02" + "-" + "30";
    ParseDayPieces("2023", "02", "30");
    NoUnderscoreNoSeconds("2023", "02", "30");
    FirstParseOfFormats(name);
  }
}
