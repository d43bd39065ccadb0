/** The query driver get_events_for_day (process_cal4.py:13-50): the
    zero-component guard, the split of the calendar text into event
    blocks, the per-block dispatch between one-off and weekly recurring
    events, the sort, and the assembly of the agenda text. The calendar
    text is a parameter; reading it from a file is not part of the model. */
module Agenda {
  import opened Wrappers
  import opened Text
  import opened Calendar
  import opened Events
  import opened EventParser
  import opened Recurrence
  import opened Format

  /** The literal that `re.split` cuts the calendar text at. */
  const BlockSeparator := "BEGIN:VEVENT\n"

  /** The guard of process_cal4.py:18: a zero year, month or day. */
  predicate IsZeroSentinel(cur: DateTime) {
    cur.date.year == 0 || cur.date.month == 0 || cur.date.day == 0
  }

  /** A target Python's `datetime` can hold. */
  predicate ValidTarget(cur: DateTime) {
    ValidDateTime(cur) && cur.date.year <= 9999
  }

  /** The event a block without `RRULE:` contributes (process_cal4.py:30-34):
      its tuple when the start date minus the target date is zero days. */
  function PlainOccurrence(block: string, cur: DateTime): (r: Result<Option<Event>, Fault>)
    requires ValidDateTime(cur)
    ensures r.Failure? <==> ProcessEvent(block).Failure?
    ensures r.Failure? ==> r == ProcessEvent(block)
    ensures r.Success? && r.value.Some? <==>
      ProcessEvent(block).Success? && ProcessEvent(block).value.Some? &&
      ProcessEvent(block).value.value.start.date == cur.date
    ensures r.Success? && r.value.Some? ==> r.value == ProcessEvent(block).value
  {
    match ProcessEvent(block)
    case Failure(f) => Failure(f)
    case Success(None) => Success(None)
    case Success(Some(ev)) =>
      OrdinalOrder(ev.start.date, cur.date);
      if DaysBetween(ev.start.date, cur.date) == 0 then Success(Some(ev)) else Success(None)
  }

  /** The event a block with `RRULE:` contributes (process_cal4.py:36-43):
      process_event runs first, then the UNTIL bound is read, then
      handle_RRULE subscripts the tuple; each step can raise, and the first
      that does ends the query. */
  function RecurringOccurrence(block: string, cur: DateTime): (r: Result<Option<Event>, Fault>)
    requires ValidDateTime(cur)
    ensures ProcessEvent(block).Failure? ==> r == ProcessEvent(block)
    ensures ProcessEvent(block).Success? && UntilOf(block).Failure? ==> r == Failure(UntilOf(block).error)
    ensures ProcessEvent(block) == Success(None) && UntilOf(block).Success? ==>
      r == Failure(RecurringWithoutEvent)
    ensures r.Success? ==>
      ProcessEvent(block).Success? && ProcessEvent(block).value.Some? && UntilOf(block).Success?
    ensures r.Success? && r.value.Some? ==>
      var ev := ProcessEvent(block).value.value;
      var until := UntilOf(block).value;
      && !DateLess(cur.date, ev.start.date) && !DateLess(until.date, cur.date)
      && DaysBetween(cur.date, ev.start.date) % 7 == 0
      && r.value.value == Rebase(ev, cur.date)
    ensures ProcessEvent(block).Success? && ProcessEvent(block).value.Some? && UntilOf(block).Success? ==>
      r.Success?
    ensures ProcessEvent(block).Success? && ProcessEvent(block).value.Some? && UntilOf(block).Success? ==>
      var ev := ProcessEvent(block).value.value;
      var until := UntilOf(block).value;
      !DateLess(cur.date, ev.start.date) && !DateLess(until.date, cur.date) &&
      DaysBetween(cur.date, ev.start.date) % 7 == 0 ==>
      r == Success(Some(Rebase(ev, cur.date)))
  {
    match ProcessEvent(block)
    case Failure(f) => Failure(f)
    case Success(tup) =>
      match UntilOf(block)
      case Failure(f) => Failure(f)
      case Success(until) =>
        if tup.None? then Failure(RecurringWithoutEvent)
        else Success(WeeklyOccurrence(cur, tup.value, until))
  }

  /** What one block contributes to the day's list. */
  function BlockOccurrence(block: string, cur: DateTime): (r: Result<Option<Event>, Fault>)
    requires ValidDateTime(cur)
    ensures r.Success? && r.value.Some? ==> r.value.value.start.date == cur.date && WellFormed(r.value.value)
  {
    if !Contains(block, RRuleMarker) then PlainOccurrence(block, cur)
    else RecurringOccurrence(block, cur)
  }

  /** The list the loop of process_cal4.py:29-43 builds from the blocks'
      outcomes, in block order, or the fault of the first block that
      raises. */
  function Gather(outs: seq<Result<Option<Event>, Fault>>): (r: Result<seq<Event>, Fault>)
    ensures r.Success? ==> |r.value| <= |outs|
    decreases |outs|
  {
    if |outs| == 0 then Success([])
    else
      match Gather(outs[..|outs| - 1])
      case Failure(f) => Failure(f)
      case Success(es) =>
        match outs[|outs| - 1]
        case Failure(f) => Failure(f)
        case Success(None) => Success(es)
        case Success(Some(e)) => Success(es + [e])
  }

  /** The event one outcome carries, if any. */
  function Carried(o: Result<Option<Event>, Fault>): seq<Event> {
    if o.Success? && o.value.Some? then [o.value.value] else []
  }

  /** The events the outcomes carry, read from the front: in order, and
      once for each outcome that carries one. */
  function Kept(outs: seq<Result<Option<Event>, Fault>>): (es: seq<Event>)
    ensures |es| <= |outs|
  {
    if |outs| == 0 then [] else Carried(outs[0]) + Kept(outs[1..])
  }

  lemma {:induction false} KeptSnoc(outs: seq<Result<Option<Event>, Fault>>)
    requires |outs| > 0
    ensures Kept(outs) == Kept(outs[..|outs| - 1]) + Carried(outs[|outs| - 1])
    decreases |outs|
  {
    if |outs| > 1 {
      var init := outs[..|outs| - 1];
      KeptSnoc(outs[1..]);
      assert outs[1..][..|outs| - 2] == init[1..];
      assert outs[1..][|outs| - 2] == outs[|outs| - 1];
      assert Kept(init) == Carried(init[0]) + Kept(init[1..]);
    } else {
      assert outs[1..] == [];
    }
  }

  /** When no block raises, the list is exactly the carried events, in
      block order and with their multiplicity. */
  lemma {:induction false} GatherKept(outs: seq<Result<Option<Event>, Fault>>)
    ensures Gather(outs).Success? ==> Gather(outs).value == Kept(outs)
    decreases |outs|
  {
    if |outs| > 0 {
      GatherKept(outs[..|outs| - 1]);
      KeptSnoc(outs);
    }
  }

  /** Once a block has raised, the blocks after it change nothing. */
  lemma {:induction false} GatherFailureSticks(outs: seq<Result<Option<Event>, Fault>>, k: nat)
    requires k <= |outs| && Gather(outs[..k]).Failure?
    ensures Gather(outs) == Gather(outs[..k])
    decreases |outs| - k
  {
    if k < |outs| {
      var init := outs[..|outs| - 1];
      assert init[..k] == outs[..k];
      GatherFailureSticks(init, k);
    } else {
      assert outs[..k] == outs;
    }
  }

  /** The list holds exactly the events that the outcomes carry. */
  lemma {:induction false} GatherMembership(outs: seq<Result<Option<Event>, Fault>>, e: Event)
    requires Gather(outs).Success?
    ensures e in Gather(outs).value <==> exists k :: 0 <= k < |outs| && outs[k] == Success(Some(e))
    decreases |outs|
  {
    if |outs| > 0 {
      var init := outs[..|outs| - 1];
      GatherMembership(init, e);
      if exists k :: 0 <= k < |outs| && outs[k] == Success(Some(e)) {
        var k :| 0 <= k < |outs| && outs[k] == Success(Some(e));
        if k < |outs| - 1 {
          assert init[k] == outs[k];
        }
      }
      if e in Gather(init).value {
        var k :| 0 <= k < |init| && init[k] == Success(Some(e));
        assert outs[k] == init[k];
      }
    }
  }

  /** The query fails exactly when some block raises. */
  lemma {:induction false} GatherFault(outs: seq<Result<Option<Event>, Fault>>)
    ensures Gather(outs).Failure? <==> exists k :: 0 <= k < |outs| && outs[k].Failure?
    decreases |outs|
  {
    if |outs| > 0 {
      var init := outs[..|outs| - 1];
      GatherFault(init);
      if Gather(init).Failure? {
        var k :| 0 <= k < |init| && init[k].Failure?;
        assert outs[k] == init[k];
      } else if outs[|outs| - 1].Success? {
        forall k | 0 <= k < |outs|
          ensures outs[k].Success?
        {
          if k < |outs| - 1 {
            assert init[k] == outs[k];
          }
        }
      }
    }
  }

  /** The fault the query reports is that of the first block that raises. */
  lemma FirstFaultWins(outs: seq<Result<Option<Event>, Fault>>, k: nat)
    requires k < |outs| && outs[k].Failure?
    requires forall j :: 0 <= j < k ==> outs[j].Success?
    ensures Gather(outs) == Failure(outs[k].error)
  {
    var prefix := outs[..k + 1];
    GatherFault(outs[..k]);
    assert prefix[..k] == outs[..k];
    GatherFailureSticks(outs, k + 1);
  }

  /** Each block's outcome, in order. */
  function Outcomes(blocks: seq<string>, cur: DateTime): (r: seq<Result<Option<Event>, Fault>>)
    requires ValidDateTime(cur)
    ensures |r| == |blocks|
    ensures forall k :: 0 <= k < |blocks| ==> r[k] == BlockOccurrence(blocks[k], cur)
  {
    seq(|blocks|, k requires 0 <= k < |blocks| => BlockOccurrence(blocks[k], cur))
  }

  /** The day's list: every entry falls on the target date and is well
      formed. */
  function Collect(blocks: seq<string>, cur: DateTime): (r: Result<seq<Event>, Fault>)
    requires ValidDateTime(cur)
    ensures r.Success? ==> forall e :: e in r.value ==> e.start.date == cur.date && WellFormed(e)
  {
    var outs := Outcomes(blocks, cur);
    var r := Gather(outs);
    if r.Success? then
      assert forall e :: e in r.value ==> e.start.date == cur.date && WellFormed(e) by {
        forall e | e in r.value
          ensures e.start.date == cur.date && WellFormed(e)
        {
          GatherMembership(outs, e);
        }
      }
      r
    else r
  }

  // ---- Assembling the agenda text ----------------------------------------

  /** Every event of the list has valid times of day. */
  predicate AllTimed(es: seq<Event>) {
    forall i :: 0 <= i < |es| ==> ValidTime(es[i].start.time) && ValidTime(es[i].end.time)
  }

  /** The agenda lines of a list of events, in order. */
  function Lines(es: seq<Event>): (ls: seq<string>)
    requires AllTimed(es)
    ensures |ls| == |es| && forall i :: 0 <= i < |es| ==> ls[i] == Line(es[i])
  {
    seq(|es|, i requires 0 <= i < |es| => Line(es[i]))
  }

  lemma LineEndsInBrace(e: Event)
    requires ValidTime(e.start.time) && ValidTime(e.end.time)
    ensures |Line(e)| > 0 && Line(e)[|Line(e)| - 1] == '}'
  {
  }

  lemma LinesEndInBrace(es: seq<Event>)
    requires AllTimed(es)
    ensures Unterminated(Lines(es))
  {
    forall i | 0 <= i < |es|
      ensures |Lines(es)[i]| > 0 && Lines(es)[i][|Lines(es)[i]| - 1] != '\n'
    {
      LineEndsInBrace(es[i]);
    }
  }

  /** Every line is non-empty and does not end in a newline. */
  predicate Unterminated(lines: seq<string>) {
    forall i :: 0 <= i < |lines| ==> |lines[i]| > 0 && lines[i][|lines[i]| - 1] != '\n'
  }

  /** The newline event_to_fstr puts before a line: none when the text so
      far already ends in one. */
  function Separator(acc: string): (r: string)
    requires |acc| > 0
    ensures |r| <= 1 && (acc + r)[|acc| + |r| - 1] == '\n'
    ensures r == "" <==> acc[|acc| - 1] == '\n'
  {
    if acc[|acc| - 1] == '\n' then "" else "\n"
  }

  /** The text after the loop of process_cal4.py:46-47, which appends each
      line, preceded by its separator. */
  function AppendLines(acc: string, lines: seq<string>): (r: string)
    requires |acc| > 0
    ensures |r| >= |acc|
    decreases |lines|
  {
    if |lines| == 0 then acc
    else AppendLines(acc + Separator(acc) + lines[0], lines[1..])
  }

  /** A join of a non-empty list ends with its last part's last character. */
  lemma {:induction false} JoinLastChar(parts: seq<string>, sep: string)
    requires |parts| > 0 && |parts[|parts| - 1]| > 0
    ensures var j := Join(parts, sep);
      |j| > 0 && j[|j| - 1] == parts[|parts| - 1][|parts[|parts| - 1]| - 1]
    decreases |parts|
  {
    if |parts| > 1 {
      JoinLastChar(parts[1..], sep);
    }
  }

  /** Appending lines that do not end in a newline separates them by
      single newlines, with one more in front only when the text so far
      does not end in one. */
  lemma {:induction false} AppendLinesJoin(acc: string, lines: seq<string>)
    requires |acc| > 0 && |lines| > 0
    requires Unterminated(lines)
    ensures AppendLines(acc, lines) == acc + Separator(acc) + Join(lines, "\n")
    decreases |lines|
  {
    var next := acc + Separator(acc) + lines[0];
    if |lines| > 1 {
      var rest := lines[1..];
      assert next[|next| - 1] == lines[0][|lines[0]| - 1];
      AppendLinesJoin(next, rest);
      calc {
        AppendLines(acc, lines);
        AppendLines(next, rest);
        next + "\n" + Join(rest, "\n");
        acc + Separator(acc) + (lines[0] + "\n" + Join(rest, "\n"));
      }
    }
  }

  /** Starting from a text that ends in a newline and appending lines
      that do not, the text still ends in one exactly when no line was
      appended. */
  lemma AppendLinesEnd(acc: string, lines: seq<string>)
    requires |acc| > 0 && acc[|acc| - 1] == '\n'
    requires Unterminated(lines)
    ensures var s := AppendLines(acc, lines); s[|s| - 1] == '\n' <==> |lines| == 0
  {
    if |lines| > 0 {
      AppendLinesJoin(acc, lines);
      JoinLastChar(lines, "\n");
      var j := Join(lines, "\n");
      assert AppendLines(acc, lines) == acc + j;
      assert (acc + j)[|acc + j| - 1] == j[|j| - 1];
    }
  }

  lemma SortKeepsTimes(es: seq<Event>)
    requires AllTimed(es)
    ensures AllTimed(SortEvents(es))
    ensures |SortEvents(es)| == |es|
  {
    var sorted := SortEvents(es);
    forall i | 0 <= i < |sorted|
      ensures ValidTime(sorted[i].start.time) && ValidTime(sorted[i].end.time)
    {
      assert sorted[i] in multiset(es);
    }
    assert |multiset(sorted)| == |multiset(es)|;
  }

  /** The text after the loop of process_cal4.py:46-47 and the test of
      process_cal4.py:49-50: `None` when the text still ends in the
      heading's newline, which happens exactly when there is no line. */
  function Render(heading: string, lines: seq<string>): (r: Option<string>)
    requires |heading| > 0 && heading[|heading| - 1] == '\n'
    requires Unterminated(lines)
    ensures r.Some? <==> |lines| > 0
  {
    AppendLinesEnd(heading, lines);
    var s := AppendLines(heading, lines);
    if s[|s| - 1] != '\n' then Some(s) else None
  }

  lemma HeadingEndsInNewline(d: Date)
    requires ValidDate(d) && d.year <= 9999
    ensures |Heading(d)| > 0 && Heading(d)[|Heading(d)| - 1] == '\n'
  {
    assert Heading(d) == Header(d) + "\n" + Underline(|Header(d)|) + "\n";
  }

  /** get_events_for_day: `None` for a target with a zero component,
      otherwise the heading (process_cal4.py:24-27) and the day's events;
      a block that raises ends the query with its fault. */
  function EventsForDay(text: string, cur: DateTime): (r: Result<Option<string>, Fault>)
    requires IsZeroSentinel(cur) || ValidTarget(cur)
    ensures IsZeroSentinel(cur) ==> r == Success(None)
    ensures !IsZeroSentinel(cur) ==> (r.Failure? <==> Collect(Split(text, BlockSeparator), cur).Failure?)
  {
    if IsZeroSentinel(cur) then Success(None)
    else
      match Collect(Split(text, BlockSeparator), cur)
      case Failure(f) => Failure(f)
      case Success(es) =>
        HeadingEndsInNewline(cur.date);
        assert AllTimed(es) by {
          forall i | 0 <= i < |es| ensures WellFormed(es[i]) {
            assert es[i] in es;
          }
        }
        var sorted := SortEvents(es);
        SortKeepsTimes(es);
        LinesEndInBrace(sorted);
        Success(Render(Heading(cur.date), Lines(sorted)))
  }

  /** An agenda is produced exactly when the target has no zero component
      and some event falls on the target date. */
  lemma AgendaPresentIff(text: string, cur: DateTime)
    requires IsZeroSentinel(cur) || ValidTarget(cur)
    requires EventsForDay(text, cur).Success?
    ensures EventsForDay(text, cur).value.Some? <==>
      !IsZeroSentinel(cur) && |Collect(Split(text, BlockSeparator), cur).value| > 0
  {
  }

  // ---- Layout of the agenda ----------------------------------------------

  lemma NoNewlineFree(x: string)
    requires NoNewline(x)
    ensures !Contains(x, "\n")
  {
    ContainsMeansOccurs(x, "\n");
    forall q | 0 <= q && q + 1 <= |x|
      ensures !OccursAt(x, q, "\n")
    {
      assert x[q..q + 1][0] == x[q];
    }
  }

  /** The heading's two lines and the event lines, written out by the
      loop, read back line by line. */
  lemma RenderSplit(h: string, u: string, lines: seq<string>)
    requires NoNewline(h) && NoNewline(u) && |lines| > 0 && Unterminated(lines)
    requires forall i :: 0 <= i < |lines| ==> NoNewline(lines[i])
    ensures Render(h + "\n" + u + "\n", lines).Some?
    ensures Split(Render(h + "\n" + u + "\n", lines).value, "\n") == [h, u] + lines
  {
    var heading := h + "\n" + u + "\n";
    var parts := [h, u] + lines;
    AppendLinesJoin(heading, lines);
    assert parts[2..] == lines;
    assert Join(parts, "\n") == h + "\n" + (u + "\n" + Join(lines, "\n"));
    assert AppendLines(heading, lines) == Join(parts, "\n");
    forall k | 0 <= k < |parts|
      ensures !Contains(parts[k], ['\n'])
    {
      NoNewlineFree(parts[k]);
    }
    SplitJoin(parts, '\n');
  }

  lemma LinesNoNewline(es: seq<Event>)
    requires forall i :: 0 <= i < |es| ==> WellFormed(es[i])
    ensures AllTimed(es)
    ensures forall i :: 0 <= i < |es| ==> NoNewline(Lines(es)[i])
  {
    forall i | 0 <= i < |es|
      ensures NoNewline(Lines(es)[i])
    {
      LineLayout(es[i]);
    }
  }

  lemma SortKeepsWellFormed(es: seq<Event>)
    requires forall e :: e in es ==> WellFormed(e)
    ensures forall i :: 0 <= i < |SortEvents(es)| ==> WellFormed(SortEvents(es)[i])
  {
    var sorted := SortEvents(es);
    forall i | 0 <= i < |sorted|
      ensures WellFormed(sorted[i])
    {
      assert sorted[i] in multiset(es);
    }
  }

  /** The agenda's lines: the header, its underline of equal length, then
      one line per event of the day in ascending tuple order. */
  lemma AgendaLayout(text: string, cur: DateTime)
    requires ValidTarget(cur)
    requires EventsForDay(text, cur).Success? && EventsForDay(text, cur).value.Some?
    ensures Collect(Split(text, BlockSeparator), cur).Success?
    ensures var sorted := SortEvents(Collect(Split(text, BlockSeparator), cur).value);
      && AllTimed(sorted)
      && Split(EventsForDay(text, cur).value.value, "\n") ==
         [Header(cur.date), Underline(|Header(cur.date)|)] + Lines(sorted)
  {
    var es := Collect(Split(text, BlockSeparator), cur).value;
    var sorted := SortEvents(es);
    SortKeepsWellFormed(es);
    LinesNoNewline(sorted);
    LinesEndInBrace(sorted);
    var h := Header(cur.date);
    var u := Underline(|h|);
    assert Heading(cur.date) == Header(cur.date) + "\n" + Underline(|Header(cur.date)|) + "\n";
    RenderSplit(h, u, Lines(sorted));
  }

  // ---- The query as the source runs it -----------------------------------

  /** A block that raises ends the query with its fault. */
  lemma GatherStops(outs: seq<Result<Option<Event>, Fault>>, i: nat)
    requires i < |outs| && Gather(outs[..i]).Success? && outs[i].Failure?
    ensures Gather(outs) == Failure(outs[i].error)
  {
    assert outs[..i + 1][..i] == outs[..i];
    GatherFailureSticks(outs, i + 1);
  }

  /** The body of the loop of process_cal4.py:29-43 for one block: what
      it appends to the list, or the fault it raises. */
  method ProcessBlock(block: string, cur: DateTime) returns (r: Result<Option<Event>, Fault>)
    requires ValidDateTime(cur)
    ensures r == BlockOccurrence(block, cur)
  {
    if !Contains(block, RRuleMarker) {
      var tup := ProcessEvent(block);
      if tup.Failure? {
        return Failure(tup.error);
      }
      if tup.value.Some? {
        if DaysBetween(tup.value.value.start.date, cur.date) == 0 {
          return Success(tup.value);
        }
      }
      return Success(None);
    } else {
      var tup := ProcessEvent(block);
      if tup.Failure? {
        return Failure(tup.error);
      }
      var until := UntilOf(block);
      if until.Failure? {
        return Failure(until.error);
      }
      if tup.value.None? {
        return Failure(RecurringWithoutEvent);
      }
      var occurrence := HandleRRule(cur, tup.value.value, until.value);
      return Success(occurrence);
    }
  }

  /** The loop of process_cal4.py:29-43: the day's list, in block order,
      unless a block raises. */
  method ScanBlocks(blocks: seq<string>, cur: DateTime) returns (r: Result<seq<Event>, Fault>)
    requires ValidDateTime(cur)
    ensures r == Collect(blocks, cur)
  {
    ghost var outs := Outcomes(blocks, cur);
    var events: seq<Event> := [];
    var i := 0;
    while i < |blocks|
      invariant 0 <= i <= |blocks|
      invariant Gather(outs[..i]) == Success(events)
    {
      var found := ProcessBlock(blocks[i], cur);
      if found.Failure? {
        GatherStops(outs, i);
        return Failure(found.error);
      }
      assert outs[..i + 1][..i] == outs[..i];
      if found.value.Some? {
        events := events + [found.value.value];
      }
      i := i + 1;
    }
    assert outs[..i] == outs;
    return Success(events);
  }

  /** The loop of process_cal4.py:46-47: each event's line appended with
      event_to_fstr. */
  method AppendEvents(heading: string, events: seq<Event>) returns (s: string)
    requires |heading| > 0 && AllTimed(events)
    ensures s == AppendLines(heading, Lines(events))
  {
    ghost var lines := Lines(events);
    s := heading;
    var j := 0;
    while j < |events|
      invariant 0 <= j <= |events| && |s| > 0
      invariant AppendLines(s, lines[j..]) == AppendLines(heading, lines)
    {
      AppendLinesUnfold(s, lines, j);
      EventToFstrSeparates(events[j], s);
      s := s + EventToFstr(events[j], s);
      j := j + 1;
    }
  }

  lemma AppendLinesUnfold(acc: string, lines: seq<string>, j: nat)
    requires |acc| > 0 && j < |lines|
    ensures AppendLines(acc, lines[j..]) == AppendLines(acc + Separator(acc) + lines[j], lines[j + 1..])
  {
    assert lines[j..][0] == lines[j] && lines[j..][1..] == lines[j + 1..];
  }

  /** event_to_fstr is the line, preceded by the separator. */
  lemma EventToFstrSeparates(e: Event, acc: string)
    requires |acc| > 0 && ValidTime(e.start.time) && ValidTime(e.end.time)
    ensures acc + EventToFstr(e, acc) == acc + Separator(acc) + Line(e)
  {
  }

  /** The final test of process_cal4.py:49-50 on the appended text is what
      Render yields. */
  lemma RenderOf(heading: string, lines: seq<string>, s: string)
    requires |heading| > 0 && heading[|heading| - 1] == '\n'
    requires Unterminated(lines) && s == AppendLines(heading, lines)
    ensures |s| > 0
    ensures Render(heading, lines) == if s[|s| - 1] != '\n' then Some(s) else None
  {
  }

  /** What the query yields once every block has been read. */
  lemma EventsForDayOnSuccess(text: string, cur: DateTime, es: seq<Event>)
    requires ValidTarget(cur) && !IsZeroSentinel(cur)
    requires Collect(Split(text, BlockSeparator), cur) == Success(es)
    ensures AllTimed(SortEvents(es)) && Unterminated(Lines(SortEvents(es)))
    ensures |Heading(cur.date)| > 0 && Heading(cur.date)[|Heading(cur.date)| - 1] == '\n'
    ensures EventsForDay(text, cur) == Success(Render(Heading(cur.date), Lines(SortEvents(es))))
  {
    assert AllTimed(es) by {
      forall i | 0 <= i < |es| ensures WellFormed(es[i]) {
        assert es[i] in es;
      }
    }
    HeadingEndsInNewline(cur.date);
    SortKeepsTimes(es);
    LinesEndInBrace(SortEvents(es));
  }

  /** get_events_for_day: the guard, the split into blocks, the scan, the
      in-place sort, and the event lines appended to the heading. */
  method GetEventsForDay(text: string, cur: DateTime) returns (r: Result<Option<string>, Fault>)
    requires IsZeroSentinel(cur) || ValidTarget(cur)
    ensures r == EventsForDay(text, cur)
  {
    if cur.date.year == 0 || cur.date.month == 0 || cur.date.day == 0 {
      return Success(None);
    }
    var blocks := Split(text, BlockSeparator);
    var s := Header(cur.date) + "\n";
    s := s + Underline(|s| - 1);
    s := s + "\n";
    assert s == Heading(cur.date);
    var scanned := ScanBlocks(blocks, cur);
    if scanned.Failure? {
      return Failure(scanned.error);
    }
    var events := scanned.value;
    EventsForDayOnSuccess(text, cur, events);
    events := SortEvents(events);
    s := AppendEvents(s, events);
    RenderOf(Heading(cur.date), Lines(events), s);
    if s[|s| - 1] != '\n' {
      return Success(Some(s));
    }
    return Success(None);
  }
}
