/** The agenda's text: the heading of process_cal4.py:24-27 and the event
    lines of event_to_fstr (process_cal4.py:52-76). `strftime` is modelled
    with the English month and weekday names of the C locale. */
module Format {
  import opened Wrappers
  import opened Text
  import opened Calendar
  import opened Events
  import opened EventParser

  const MonthNames := ["January", "February", "March", "April", "May", "June", "July",
                       "August", "September", "October", "November", "December"]

  const WeekdayAbbreviations := ["Mon", "Tue", "Wed", "Thu", "Fri", "Sat", "Sun"]

  /** `strftime(cur_dt, '%B %d, %Y (%a)')`. */
  function Header(d: Date): (h: string)
    requires ValidDate(d) && d.year <= 9999
    ensures NoNewline(h)
    ensures |h| == |MonthNames[d.month - 1]| + 15 <= 24
  {
    MonthNames[d.month - 1] + " " + Numeral(d.day, 2) + ", " + Numeral(d.year, 4)
      + " (" + WeekdayAbbreviations[Weekday(d)] + ")"
  }

  /** The header reads back as the month's name, the day, the year and the
      weekday's abbreviation. */
  lemma HeaderFields(d: Date)
    requires ValidDate(d) && d.year <= 9999
    ensures var h, m := Header(d), MonthNames[d.month - 1];
      && h[..|m|] == m && h[|m|] == ' '
      && AllDigits(h[|m| + 1..|m| + 3]) && Value(h[|m| + 1..|m| + 3]) == d.day
      && h[|m| + 3..|m| + 5] == ", "
      && AllDigits(h[|m| + 5..|m| + 9]) && Value(h[|m| + 5..|m| + 9]) == d.year
      && h[|m| + 9..] == " (" + WeekdayAbbreviations[Weekday(d)] + ")"
  {
    HeaderPieces(MonthNames[d.month - 1], Numeral(d.day, 2), Numeral(d.year, 4),
                 WeekdayAbbreviations[Weekday(d)]);
    ValueOfNumeral(d.day, 2);
    ValueOfNumeral(d.year, 4);
  }

  lemma HeaderPieces(m: string, dd: string, yy: string, ab: string)
    requires |dd| == 2 && |yy| == 4
    ensures var h := m + " " + dd + ", " + yy + " (" + ab + ")";
      && h[..|m|] == m && h[|m|] == ' ' && h[|m| + 1..|m| + 3] == dd
      && h[|m| + 3..|m| + 5] == ", " && h[|m| + 5..|m| + 9] == yy
      && h[|m| + 9..] == " (" + ab + ")"
  {
    var h := m + " " + dd + ", " + yy + " (" + ab + ")";
    assert h == m + (" " + dd + ", " + yy + " (" + ab + ")");
  }

  function Repeat(c: char, n: nat): (r: string)
    ensures |r| == n && forall i :: 0 <= i < n ==> r[i] == c
  {
    if n == 0 then "" else Repeat(c, n - 1) + [c]
  }

  /** The 63 hyphens that the underline is cut from. */
  const Hyphens := Repeat('-', 63)

  /** `hyphens[:n]`. */
  function Underline(n: nat): (u: string)
    ensures |u| == if n <= |Hyphens| then n else |Hyphens|
    ensures forall i :: 0 <= i < |u| ==> u[i] == '-'
  {
    if n <= |Hyphens| then Hyphens[..n] else Hyphens
  }

  /** The string before any event line, built in the source's three
      steps: the header and an underline exactly as long, each on its own
      line. */
  function Heading(d: Date): (h: string)
    requires ValidDate(d) && d.year <= 9999
    ensures h == Header(d) + "\n" + Underline(|Header(d)|) + "\n"
    ensures |Underline(|Header(d)|)| == |Header(d)|
  {
    var s := Header(d) + "\n";
    var s := s + Underline(|s| - 1);
    s + "\n"
  }

  /** `strftime(t, '%I:%M %p')`: zero-padded hour of the 12-hour clock. */
  function Clock(t: Time): (s: string)
    requires ValidTime(t)
    ensures |s| == 8
  {
    var h := if t.hour % 12 == 0 then 12 else t.hour % 12;
    Numeral(h, 2) + ":" + Numeral(t.minute, 2) + " " + (if t.hour < 12 then "AM" else "PM")
  }

  /** `if s[0] == '0': s = ' ' + s[1:]`. */
  function BlankLeadingZero(s: string): (r: string)
    ensures |r| == |s|
    ensures |s| > 0 ==> r[1..] == s[1..] && r[0] == (if s[0] == '0' then ' ' else s[0])
  {
    if |s| > 0 && s[0] == '0' then " " + s[1..] else s
  }

  /** The displayed time: a clock with its leading zero blanked. */
  function ClockText(t: Time): (s: string)
    requires ValidTime(t)
    ensures |s| == 8
    ensures s[0] == ' ' || s[0] == '1'
  {
    var h := if t.hour % 12 == 0 then 12 else t.hour % 12;
    assert Clock(t)[..2] == Numeral(h, 2) && Numeral(h, 2)[0] == Numeral(h / 10, 1)[0];
    assert Numeral(h / 10, 1) == [DigitChar(h / 10)];
    BlankLeadingZero(Clock(t))
  }

  /** One agenda line, without the newline that separates it from the
      previous one. */
  function Line(e: Event): (l: string)
    requires ValidTime(e.start.time) && ValidTime(e.end.time)
    ensures |l| == 27 + |e.summary| + |e.location|
    ensures l[|l| - 2..] == "}}"
  {
    BlankLeadingZero(Clock(e.start.time) + " ") + "to " + BlankLeadingZero(Clock(e.end.time))
      + ": " + e.summary + " {{" + e.location + "}}"
  }

  /** event_to_fstr: a line, preceded by a newline unless the text so far
      already ends in one. */
  function EventToFstr(e: Event, acc: string): (r: string)
    requires |acc| > 0
    requires ValidTime(e.start.time) && ValidTime(e.end.time)
    ensures |Line(e)| <= |r| <= |Line(e)| + 1 && r[|r| - |Line(e)|..] == Line(e)
    ensures (acc + r)[|acc| + |r| - |Line(e)| - 1] == '\n'
    ensures |r| == |Line(e)| + 1 <==> acc[|acc| - 1] != '\n'
  {
    (if acc[|acc| - 1] == '\n' then "" else "\n") + Line(e)
  }

  /** Reads a displayed hour of the 12-hour clock back (" 1" to " 9",
      "10" to "12"); a leading zero is not a displayed hour. */
  function ReadHour(s: string): Option<int> {
    if |s| != 2 || !(s[0] == ' ' || s[0] == '1') || !IsDigit(s[1]) then None
    else
      var h := (if s[0] == ' ' then 0 else Value(s[..1])) * 10 + Value(s[1..]);
      if 1 <= h <= 12 then Some(h) else None
  }

  /** Reads a displayed minute back ("00" to "59"). */
  function ReadMinute(s: string): Option<int> {
    if |s| == 2 && AllDigits(s) && Value(s) < 60 then Some(Value(s)) else None
  }

  /** Reads a displayed time back: its hour on the 24-hour clock and its
      minute. */
  function ReadClock(s: string): Option<(int, int)> {
    if |s| != 8 || s[2] != ':' || s[5] != ' ' || !(s[6..] == "AM" || s[6..] == "PM") then None
    else
      match (ReadHour(s[..2]), ReadMinute(s[3..5]))
      case (Some(h), Some(m)) => Some((h % 12 + (if s[6..] == "PM" then 12 else 0), m))
      case _ => None
  }

  lemma BlankLeadingZeroPrefix(a: string, b: string)
    requires |a| > 0
    ensures BlankLeadingZero(a + b) == BlankLeadingZero(a) + b
  {
    if a[0] == '0' {
      assert (a + b)[1..] == a[1..] + b;
    }
  }

  lemma ReadHourOf(hi: int, lo: int)
    requires 0 <= hi <= 1 && 0 <= lo < 10 && 1 <= 10 * hi + lo <= 12
    ensures ReadHour([if hi == 0 then ' ' else DigitChar(hi), DigitChar(lo)]) == Some(10 * hi + lo)
  {
    var b := [if hi == 0 then ' ' else DigitChar(hi), DigitChar(lo)];
    assert b[1..] == [DigitChar(lo)] && Value([DigitChar(lo)]) == lo;
    if hi == 1 {
      assert b[..1] == [DigitChar(1)] && Value([DigitChar(1)]) == 1;
    }
  }

  lemma HourRoundTrip(h: nat)
    requires 1 <= h <= 12
    ensures ReadHour(BlankLeadingZero(Numeral(h, 2))) == Some(h)
  {
    var hi, lo := h / 10, h % 10;
    assert h == 10 * hi + lo && hi <= 1;
    assert Numeral(h, 2) == [DigitChar(hi), DigitChar(lo)] by {
      assert Numeral(hi, 1) == [DigitChar(hi)];
    }
    ReadHourOf(hi, lo);
  }

  lemma ReadClockOf(a: string, b: string, ap: string, h: int, m: int)
    requires ReadHour(a) == Some(h) && ReadMinute(b) == Some(m)
    requires ap == "AM" || ap == "PM"
    ensures ReadClock(a + ":" + b + " " + ap) == Some((h % 12 + (if ap == "PM" then 12 else 0), m))
  {
    var s := a + ":" + b + " " + ap;
    assert s[..2] == a && s[3..5] == b && s[6..] == ap;
  }

  /** The displayed time as its parts: the blanked hour, the minute and the
      half of the day. */
  lemma ClockTextParts(t: Time)
    requires ValidTime(t)
    ensures var h := if t.hour % 12 == 0 then 12 else t.hour % 12;
      ClockText(t) == BlankLeadingZero(Numeral(h, 2)) + ":" + Numeral(t.minute, 2) + " "
        + (if t.hour < 12 then "AM" else "PM")
  {
    var h := if t.hour % 12 == 0 then 12 else t.hour % 12;
    var hh, mm := Numeral(h, 2), Numeral(t.minute, 2);
    var ap := if t.hour < 12 then "AM" else "PM";
    BlankLeadingZeroPrefix(hh, ":" + mm + " " + ap);
    assert Clock(t) == hh + (":" + mm + " " + ap);
  }

  /** The 12-hour display loses nothing but the seconds: the hour and the
      minute can be read back from it. */
  lemma ClockRoundTrip(t: Time)
    requires ValidTime(t)
    ensures ReadClock(ClockText(t)) == Some((t.hour, t.minute))
  {
    var h := if t.hour % 12 == 0 then 12 else t.hour % 12;
    var ap := if t.hour < 12 then "AM" else "PM";
    ClockTextParts(t);
    HourRoundTrip(h);
    ValueOfNumeral(t.minute, 2);
    ReadClockOf(BlankLeadingZero(Numeral(h, 2)), Numeral(t.minute, 2), ap, h, t.minute);
    TwelveHour(t.hour);
  }

  /** The 12-hour clock's hour and half of the day give back the hour of
      the 24-hour clock. */
  lemma TwelveHour(hour: int)
    requires 0 <= hour < 24
    ensures var h := if hour % 12 == 0 then 12 else hour % 12;
      h % 12 + (if hour < 12 then 0 else 12) == hour
  {
  }

  lemma NoNewlineConcat(a: string, b: string)
    requires NoNewline(a) && NoNewline(b)
    ensures NoNewline(a + b)
  {
    assert forall i :: 0 <= i < |b| ==> (a + b)[|a| + i] == b[i];
  }

  lemma ClockTextNoNewline(t: Time)
    requires ValidTime(t)
    ensures NoNewline(ClockText(t))
  {
    var h := if t.hour % 12 == 0 then 12 else t.hour % 12;
    ClockTextParts(t);
    var hh := Numeral(h, 2);
    var b := BlankLeadingZero(hh);
    assert b[1..] == hh[1..];
    assert b[0] == ' ' || b[0] == hh[0];
    var mm := Numeral(t.minute, 2);
    assert NoNewline(mm);
    NoNewlineConcat(b, ":");
    NoNewlineConcat(b + ":", mm);
    NoNewlineConcat(b + ":" + mm, " ");
    NoNewlineConcat(b + ":" + mm + " ", if t.hour < 12 then "AM" else "PM");
  }

  /** Line, written as its parts. */
  lemma LineParts(e: Event)
    requires ValidTime(e.start.time) && ValidTime(e.end.time)
    ensures Line(e) == (ClockText(e.start.time) + " to " + ClockText(e.end.time) + ": ")
      + (e.summary + " {{" + e.location + "}}")
  {
    var c := Clock(e.start.time);
    BlankLeadingZeroPrefix(c, " ");
  }

  /** An event line reads back field by field: the start time, " to ",
      the end time, ": ", the summary, then the location in double braces;
      it holds no newline when the summary and location hold none. */
  lemma LineLayout(e: Event)
    requires ValidTime(e.start.time) && ValidTime(e.end.time)
    ensures var l := Line(e);
      && |l| == 27 + |e.summary| + |e.location|
      && (l[0] == ' ' || l[0] == '1') && (l[12] == ' ' || l[12] == '1')
      && ReadClock(l[..8]) == Some((e.start.time.hour, e.start.time.minute))
      && l[8..12] == " to "
      && ReadClock(l[12..20]) == Some((e.end.time.hour, e.end.time.minute))
      && l[20..22] == ": "
      && l[22..22 + |e.summary|] == e.summary
      && l[22 + |e.summary|..] == " {{" + e.location + "}}"
    ensures NoNewline(e.summary) && NoNewline(e.location) ==> NoNewline(Line(e))
  {
    LineFields(e);
    ClockRoundTrip(e.start.time);
    ClockRoundTrip(e.end.time);
    if NoNewline(e.summary) && NoNewline(e.location) {
      LineNoNewline(e);
    }
  }

  lemma LineFields(e: Event)
    requires ValidTime(e.start.time) && ValidTime(e.end.time)
    ensures var l := Line(e);
      && |l| == 27 + |e.summary| + |e.location|
      && l[..8] == ClockText(e.start.time) && l[8..12] == " to "
      && l[12..20] == ClockText(e.end.time) && l[20..22] == ": "
      && l[22..22 + |e.summary|] == e.summary
      && l[22 + |e.summary|..] == " {{" + e.location + "}}"
  {
    var st, en := ClockText(e.start.time), ClockText(e.end.time);
    var p := st + " to " + en + ": ";
    var q := e.summary + " {{" + e.location + "}}";
    LineParts(e);
    var l := Line(e);
    assert l == p + q && |p| == 22;
    assert l[..22] == p && l[22..] == q;
    assert p[..8] == st && p[8..12] == " to " && p[12..20] == en && p[20..22] == ": ";
    assert q[..|e.summary|] == e.summary && q[|e.summary|..] == " {{" + e.location + "}}";
  }

  lemma LineNoNewline(e: Event)
    requires ValidTime(e.start.time) && ValidTime(e.end.time)
    requires NoNewline(e.summary) && NoNewline(e.location)
    ensures NoNewline(Line(e))
  {
    var st, en := ClockText(e.start.time), ClockText(e.end.time);
    var p := st + " to " + en + ": ";
    var q := e.summary + " {{" + e.location + "}}";
    LineParts(e);
    ClockTextNoNewline(e.start.time);
    ClockTextNoNewline(e.end.time);
    NoNewlineConcat(st, " to ");
    NoNewlineConcat(st + " to ", en);
    NoNewlineConcat(st + " to " + en, ": ");
    NoNewlineConcat(e.summary, " {{");
    NoNewlineConcat(e.summary + " {{", e.location);
    NoNewlineConcat(e.summary + " {{" + e.location, "}}");
    NoNewlineConcat(p, q);
  }
}
