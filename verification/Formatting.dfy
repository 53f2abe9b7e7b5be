/** RouterOS date text: the printer and the parser of formatting.py. */
module Formatting {
  import opened Text
  import opened Calendar

  datatype Option<T> = None | Some(value: T)

  const MONTHS: seq<string> :=
    ["jan", "feb", "mar", "apr", "may", "jun", "jul", "aug", "sep", "oct", "nov", "dec"]

  function MonthName(month: int): (s: string)
    requires 1 <= month <= 12
    ensures |s| == 3
  {
    MONTHS[month - 1]
  }

  /** `_MONTH_ABBREVIATIONS.get(name)`: 0 when the name is not a month. */
  function MonthNumber(name: string): (month: nat)
    ensures month <= 12
    ensures month > 0 ==> name == MonthName(month)
  {
    if name == "jan" then 1 else if name == "feb" then 2 else if name == "mar" then 3
    else if name == "apr" then 4 else if name == "may" then 5 else if name == "jun" then 6
    else if name == "jul" then 7 else if name == "aug" then 8 else if name == "sep" then 9
    else if name == "oct" then 10 else if name == "nov" then 11 else if name == "dec" then 12
    else 0
  }

  lemma MonthNumberOfName(month: int)
    requires 1 <= month <= 12
    ensures MonthNumber(MonthName(month)) == month
    ensures All(MonthName(month), IsLetter) && Lower(MonthName(month)) == MonthName(month)
  {
    var name := MonthName(month);
    assert forall i :: 0 <= i < 3 ==> 'a' <= name[i] <= 'z';
    assert Lower(name)[0] == name[0] && Lower(name)[1] == name[1] && Lower(name)[2] == name[2];
    if month <= 6 {
      assert MonthNumber(name) == month;
    } else {
      assert MonthNumber(name) == month;
    }
  }

  // ---- Printing ----

  function FormatDate(d: DateTime): string
    requires Representable(d)
  {
    MonthName(d.month) + "/" + Two(d.day) + "/" + Four(d.year)
  }

  function FormatTime(d: DateTime): string
    requires Representable(d)
  {
    Two(d.hour) + ":" + Two(d.minute) + ":" + Two(d.second)
  }

  // ---- Parsing ----

  datatype Clock = Clock(hour: nat, minute: nat, second: nat)

  /** `(\d{1,2}):(\d{2}):(\d{2})` against the whole text. */
  function ScanClock(s: string): Option<Clock> {
    var h := |s| - 6;
    if 1 <= h <= 2 && Digits(s[..h]) && s[h] == ':' && Digits(s[h + 1..h + 3]) && s[h + 3] == ':'
       && Digits(s[h + 4..])
    then Some(Clock(Number(s[..h]), Number(s[h + 1..h + 3]), Number(s[h + 4..])))
    else None
  }

  function ScanIsoClock(s: string): Option<Clock> {
    if s == "" then Some(Clock(0, 0, 0))
    else if s[0] == ' ' || s[0] == 'T' then ScanClock(s[1..])
    else None
  }

  function ScanRosClock(s: string): Option<Clock> {
    if s == "" then Some(Clock(0, 0, 0))
    else if IsSpace(s[0]) then ScanClock(TrimLeft(s))
    else None
  }

  /** `datetime(...)`, whose ValueError the parser turns into None. */
  function MakeDateTime(year: int, month: int, day: int, clock: Option<Clock>): Option<DateTime> {
    if clock.None? then None
    else
      var d := DateTime(year, month, day, clock.value.hour, clock.value.minute, clock.value.second);
      if Representable(d) then Some(d) else None
  }

  /** `yyyy-mm-dd` with an optional clock. */
  function ParseIso(s: string): Option<DateTime> {
    if |s| >= 10 && Digits(s[..4]) && s[4] == '-' && Digits(s[5..7]) && s[7] == '-' && Digits(s[8..10])
    then MakeDateTime(Number(s[..4]), Number(s[5..7]), Number(s[8..10]), ScanIsoClock(s[10..]))
    else None
  }

  function ParseRosDay(name: string, s: string, width: nat): Option<DateTime>
    requires 1 <= width <= 2
  {
    if |s| >= width + 5 && Digits(s[..width]) && s[width] == '/' && Digits(s[width + 1..width + 5])
    then
      MakeDateTime(Number(s[width + 1..width + 5]), MonthNumber(Lower(name)), Number(s[..width]),
                   ScanRosClock(s[width + 5..]))
    else None
  }

  /** `mmm/d/yyyy` or `mmm/dd/yyyy` with an optional clock. */
  function ParseRos(s: string): Option<DateTime> {
    if |s| >= 4 && All(s[..3], IsLetter) && s[3] == '/'
    then
      var rest := s[4..];
      if |rest| >= 2 && IsDecimal(rest[0]) && IsDecimal(rest[1]) then ParseRosDay(s[..3], rest, 2)
      else ParseRosDay(s[..3], rest, 1)
    else None
  }

  function ParseText(s: string): Option<DateTime> {
    if s != "" && IsDecimal(s[0]) then ParseIso(s) else ParseRos(s)
  }

  function ParseRosDateTime(text: string): Option<DateTime> {
    ParseText(Strip(text))
  }

  // ---- The two shapes, stated without scanning ----

  predicate IsNumeral(s: string, low: nat, high: nat, n: int) {
    low <= |s| <= high && Digits(s) && Number(s) == n
  }

  predicate Midnight(d: DateTime) {
    d.hour == 0 && d.minute == 0 && d.second == 0
  }

  predicate ClockPieces(d: DateTime, h: string, m: string, s: string) {
    IsNumeral(h, 1, 2, d.hour) && IsNumeral(m, 2, 2, d.minute) && IsNumeral(s, 2, 2, d.second)
  }

  ghost predicate ReadsClock(text: string, d: DateTime) {
    exists h, m, s :: ClockPieces(d, h, m, s) && text == h + ":" + m + ":" + s
  }

  ghost predicate ReadsIsoTail(tail: string, d: DateTime) {
    if tail == "" then Midnight(d) else (tail[0] == ' ' || tail[0] == 'T') && ReadsClock(tail[1..], d)
  }

  ghost predicate ReadsRosTail(tail: string, d: DateTime) {
    if tail == "" then Midnight(d)
    else exists blanks, clock :: BlankThenClock(blanks, clock, d) && tail == blanks + clock
  }

  ghost predicate BlankThenClock(blanks: string, clock: string, d: DateTime) {
    blanks != "" && All(blanks, IsSpace) && ReadsClock(clock, d)
  }

  ghost predicate IsoPieces(d: DateTime, y: string, m: string, day: string, tail: string) {
    IsNumeral(y, 4, 4, d.year) && IsNumeral(m, 2, 2, d.month) && IsNumeral(day, 2, 2, d.day) && ReadsIsoTail(tail, d)
  }

  ghost predicate ReadsIso(s: string, d: DateTime) {
    exists y, m, day, tail :: IsoPieces(d, y, m, day, tail) && s == y + "-" + m + "-" + day + tail
  }

  ghost predicate RosPieces(d: DateTime, name: string, day: string, y: string, tail: string) {
    && |name| == 3 && All(name, IsLetter) && MonthNumber(Lower(name)) == d.month
    && IsNumeral(day, 1, 2, d.day) && IsNumeral(y, 4, 4, d.year) && ReadsRosTail(tail, d)
  }

  ghost predicate ReadsRos(s: string, d: DateTime) {
    exists name, day, y, tail :: RosPieces(d, name, day, y, tail) && s == name + "/" + day + "/" + y + tail
  }

  // ---- Scanning agrees with the shapes ----

  predicate ClockIs(c: Option<Clock>, d: DateTime) {
    c.Some? && c.value.hour == d.hour && c.value.minute == d.minute && c.value.second == d.second
  }

  lemma ScanClockMeets(s: string, d: DateTime)
    ensures ClockIs(ScanClock(s), d) <==> ReadsClock(s, d)
  {
    hide IsDecimal, ValueOf;
    var n := |s| - 6;
    if ClockIs(ScanClock(s), d) {
      var h, m, sec := s[..n], s[n + 1..n + 3], s[n + 4..];
      assert s == h + ":" + m + ":" + sec;
      assert ClockPieces(d, h, m, sec);
    }
    if ReadsClock(s, d) {
      var h, m, sec :| ClockPieces(d, h, m, sec) && s == h + ":" + m + ":" + sec;
      assert s[..n] == h && s[n + 1..n + 3] == m && s[n + 4..] == sec;
    }
  }

  lemma {:induction false} TrimLeftParts(s: string) returns (blanks: string)
    ensures s == blanks + TrimLeft(s) && All(blanks, IsSpace)
    ensures TrimLeft(s) == "" || !IsSpace(TrimLeft(s)[0])
    ensures s != "" && IsSpace(s[0]) <==> blanks != ""
  {
    if s != "" && IsSpace(s[0]) {
      var more := TrimLeftParts(s[1..]);
      blanks := [s[0]] + more;
    } else {
      blanks := "";
    }
  }

  lemma {:induction false} TrimLeftBlanks(blanks: string, s: string)
    requires All(blanks, IsSpace) && s != "" && !IsSpace(s[0])
    ensures TrimLeft(blanks + s) == s
  {
    if blanks == "" {
      assert blanks + s == s;
    } else {
      assert (blanks + s)[1..] == blanks[1..] + s;
      TrimLeftBlanks(blanks[1..], s);
    }
  }

  lemma ClockStartsSolid(s: string, d: DateTime)
    requires ReadsClock(s, d)
    ensures s != "" && !IsSpace(s[0]) && !IsSpace(s[|s| - 1])
  {
    var h, m, sec :| ClockPieces(d, h, m, sec) && s == h + ":" + m + ":" + sec;
    hide IsDecimal, IsSpace;
    assert s[0] == h[0] && s[|s| - 1] == sec[1];
    DecimalIsNoSpace(h[0]);
    DecimalIsNoSpace(sec[1]);
  }

  lemma ScanIsoClockMeets(s: string, d: DateTime)
    ensures ClockIs(ScanIsoClock(s), d) <==> ReadsIsoTail(s, d)
  {
    if s != "" {
      ScanClockMeets(s[1..], d);
    }
  }

  lemma ScanRosClockFinds(s: string, d: DateTime)
    requires ReadsRosTail(s, d)
    ensures ClockIs(ScanRosClock(s), d)
  {
    if s != "" {
      var blanks, clock :| BlankThenClock(blanks, clock, d) && s == blanks + clock;
      ClockStartsSolid(clock, d);
      TrimLeftBlanks(blanks, clock);
      ScanClockMeets(clock, d);
      assert s[0] == blanks[0];
    }
  }

  lemma ScanRosClockSound(s: string, d: DateTime)
    requires ClockIs(ScanRosClock(s), d)
    ensures ReadsRosTail(s, d)
  {
    if s != "" {
      var blanks := TrimLeftParts(s);
      ScanClockMeets(TrimLeft(s), d);
      assert BlankThenClock(blanks, TrimLeft(s), d);
    }
  }

  lemma ParseIsoFinds(d: DateTime, y: string, m: string, day: string, tail: string)
    requires Representable(d) && IsoPieces(d, y, m, day, tail)
    ensures ParseIso(y + "-" + m + "-" + day + tail) == Some(d)
  {
    hide IsDecimal, ValueOf;
    var s := y + "-" + m + "-" + day + tail;
    assert s[..4] == y && s[5..7] == m && s[8..10] == day && s[10..] == tail;
    ScanIsoClockMeets(tail, d);
  }

  lemma ParseIsoSound(s: string, d: DateTime)
    requires ParseIso(s) == Some(d)
    ensures Representable(d) && ReadsIso(s, d)
  {
    hide IsDecimal, ValueOf;
    var y, m, day, tail := s[..4], s[5..7], s[8..10], s[10..];
    ScanIsoClockMeets(tail, d);
    assert IsoPieces(d, y, m, day, tail);
    assert s == y + "-" + m + "-" + day + tail;
  }

  lemma ParseRosFinds(d: DateTime, name: string, day: string, y: string, tail: string)
    requires Representable(d) && RosPieces(d, name, day, y, tail)
    ensures ParseRos(name + "/" + day + "/" + y + tail) == Some(d)
  {
    hide IsDecimal, ValueOf;
    AsciiDecimal('/');
    var s := name + "/" + day + "/" + y + tail;
    var rest := s[4..];
    var width := |day|;
    assert s[..3] == name && s[3] == '/' && rest == day + "/" + y + tail;
    assert rest[..width] == day && rest[width] == '/';
    assert rest[width + 1..width + 5] == y && rest[width + 5..] == tail;
    assert width == 1 ==> rest[0] == day[0] && rest[1] == '/';
    assert width == 2 ==> rest[0] == day[0] && rest[1] == day[1];
    ScanRosClockFinds(tail, d);
    assert ParseRosDay(name, rest, width) == Some(d);
  }

  lemma RosPiecesRead(s: string, d: DateTime, name: string, day: string, y: string, tail: string)
    requires RosPieces(d, name, day, y, tail)
    requires s == name + ("/" + (day + ("/" + (y + tail))))
    ensures ReadsRos(s, d)
  {
    hide IsDecimal, ValueOf, RosPieces;
    assert s == name + "/" + day + "/" + y + tail;
  }

  lemma SlashAt(s: string, at: nat)
    requires |s| >= at + 5 && s[at] == '/'
    ensures s == s[..at] + ("/" + (s[at + 1..at + 5] + s[at + 5..]))
  {
  }

  lemma ParseRosDaySound(name: string, rest: string, width: nat, d: DateTime)
    requires 1 <= width <= 2 && |name| == 3 && All(name, IsLetter)
    requires ParseRosDay(name, rest, width) == Some(d)
    ensures Representable(d) && ReadsRos(name + ("/" + rest), d)
  {
    var day, y, tail := rest[..width], rest[width + 1..width + 5], rest[width + 5..];
    ScanRosClockSound(tail, d);
    hide ReadsRosTail, ReadsRos, ScanRosClock, IsDecimal, ValueOf;
    assert RosPieces(d, name, day, y, tail);
    assert |rest| >= width + 5 && rest[width] == '/';
    hide *;
    SlashAt(rest, width);
    RosPiecesRead(name + ("/" + rest), d, name, day, y, tail);
  }

  lemma ParseRosSound(s: string, d: DateTime)
    requires ParseRos(s) == Some(d)
    ensures Representable(d) && ReadsRos(s, d)
  {
    hide ReadsRos, ParseRosDay, IsDecimal;
    var name, rest := s[..3], s[4..];
    assert s == name + ("/" + rest);
    var width := if |rest| >= 2 && IsDecimal(rest[0]) && IsDecimal(rest[1]) then 2 else 1;
    ParseRosDaySound(name, rest, width, d);
  }

  /** The parser accepts exactly the two shapes, and only real calendar moments
      up to year 9999. */
  lemma ParseMeets(text: string, d: DateTime)
    ensures ParseRosDateTime(text) == Some(d) <==>
            Representable(d) && (ReadsIso(Strip(text), d) || ReadsRos(Strip(text), d))
  {
    hide IsDecimal, ValueOf, Strip, ParseIso, ParseRos, IsoPieces, RosPieces;
    var s := Strip(text);
    if ParseRosDateTime(text) == Some(d) {
      if s != "" && IsDecimal(s[0]) {
        ParseIsoSound(s, d);
      } else {
        ParseRosSound(s, d);
      }
    } else if Representable(d) && ReadsIso(s, d) {
      var y, m, day, tail :| IsoPieces(d, y, m, day, tail) && s == y + "-" + m + "-" + day + tail;
      IsoStarts(d, y, m, day, tail);
      ParseIsoFinds(d, y, m, day, tail);
    } else if Representable(d) && ReadsRos(s, d) {
      var name, day, y, tail :| RosPieces(d, name, day, y, tail) && s == name + "/" + day + "/" + y + tail;
      RosStarts(d, name, day, y, tail);
      ParseRosFinds(d, name, day, y, tail);
    }
  }

  lemma IsoStarts(d: DateTime, y: string, m: string, day: string, tail: string)
    requires IsoPieces(d, y, m, day, tail)
    ensures var s := y + "-" + m + "-" + day + tail;
            s != "" && IsDecimal(s[0])
  {
    hide IsDecimal, ReadsIsoTail, ValueOf;
    var s := y + "-" + m + "-" + day + tail;
    assert s[0] == y[0];
  }

  lemma RosStarts(d: DateTime, name: string, day: string, y: string, tail: string)
    requires RosPieces(d, name, day, y, tail)
    ensures var s := name + "/" + day + "/" + y + tail;
            s != "" && !IsDecimal(s[0])
  {
    hide IsDecimal, ReadsRosTail, ValueOf, IsNumeral;
    var s := name + "/" + day + "/" + y + tail;
    assert s[0] == name[0];
    AsciiDecimal(s[0]);
  }

  lemma PrintedParses(d: DateTime)
    requires Representable(d)
    ensures ParseRos(FormatDate(d) + " " + FormatTime(d)) == Some(d)
  {
    var name, day, y, clock := MonthName(d.month), Two(d.day), Four(d.year), FormatTime(d);
    MonthNumberOfName(d.month);
    assert BlankThenClock(" ", clock, d) by {
      assert ClockPieces(d, Two(d.hour), Two(d.minute), Two(d.second));
    }
    hide ParseRos;
    assert RosPieces(d, name, day, y, " " + clock);
    ParseRosFinds(d, name, day, y, " " + clock);
    hide *;
    PrintedPieces(d);
  }

  lemma PrintedPieces(d: DateTime)
    requires Representable(d)
    ensures FormatDate(d) + " " + FormatTime(d) ==
            MonthName(d.month) + "/" + Two(d.day) + "/" + Four(d.year) + (" " + FormatTime(d))
  {
  }

  /** Parsing the printed date and time, joined by a blank, gives the moment back. */
  lemma RoundTrip(d: DateTime)
    requires Representable(d)
    ensures ParseRosDateTime(FormatDate(d) + " " + FormatTime(d)) == Some(d)
  {
    hide ParseRos, ParseIso, Strip;
    var s := FormatDate(d) + " " + FormatTime(d);
    PrintedParses(d);
    MonthNumberOfName(d.month);
    assert s[0] == MonthName(d.month)[0] && s[|s| - 1] == Two(d.second)[1];
    StripNothing(s);
  }
}
