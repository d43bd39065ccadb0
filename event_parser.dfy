/** Field extraction from one VEVENT block (process_cal4.py:104-134 and the
    UNTIL bound of process_cal4.py:36-40). Each regular expression of the
    source is a fixed pattern, modelled as a hand-written scanner with the
    same leftmost-match, greedy-repetition semantics; `strptime` with the
    format `%Y%m%d%H%M%S` is modelled with its own field alternatives. */
module EventParser {
  import opened Wrappers
  import opened Text
  import opened Calendar
  import opened Events

  /** Why the source raises instead of returning. */
  datatype Fault =
    | StampUnreadable        // strptime raises ValueError (process_cal4.py:120-121, 127-128, 40)
    | UntilNotFound          // `raw_until.group()` on None raises AttributeError (process_cal4.py:40)
    | RecurringWithoutEvent  // `event_tup[0]` on None raises TypeError (process_cal4.py:83)

  // ---- Character classes and greedy runs ---------------------------------

  /** `\s` (and `str.isspace`) for Python `str` patterns. */
  predicate IsSpace(c: char) {
    var n := c as int;
    (9 <= n <= 13) || (28 <= n <= 32) || n == 0x85 || n == 0xA0 || n == 0x1680 ||
    (0x2000 <= n <= 0x200A) || n == 0x2028 || n == 0x2029 || n == 0x202F ||
    n == 0x205F || n == 0x3000
  }

  predicate NoNewline(s: string) {
    forall i :: 0 <= i < |s| ==> s[i] != '\n'
  }

  datatype CharClass = Digit | NotNewline | NotSpace

  predicate InClass(c: char, k: CharClass) {
    match k
    case Digit => IsDigit(c)
    case NotNewline => c != '\n'
    case NotSpace => !IsSpace(c)
  }

  /** End of the longest run of class-`k` characters from `i`: a greedy
      `[0-9]+`, `[^\n]+` or `\S+`. */
  function RunEnd(s: string, i: nat, k: CharClass): (e: nat)
    requires i <= |s|
    ensures i <= e <= |s|
    ensures forall j :: i <= j < e ==> InClass(s[j], k)
    ensures e < |s| ==> !InClass(s[e], k)
    decreases |s| - i
  {
    if i < |s| && InClass(s[i], k) then RunEnd(s, i + 1, k) else i
  }

  // ---- The patterns ------------------------------------------------------

  /** `LABEL([0-9]+)T([0-9]+)`, `LABEL([^\n]+)`, and
      `RRULE:\S+UNTIL=([0-9]+)T([0-9]+)\S+`. */
  datatype Pattern = StampField(name: string) | TextField(name: string) | UntilField

  /** What a pattern's groups capture. */
  datatype Capture = StampDigits(datePart: string, timePart: string) | FieldText(text: string)

  const DtStart := StampField("DTSTART:")
  const DtEnd := StampField("DTEND:")
  const Location := TextField("LOCATION:")
  const Summary := TextField("SUMMARY:")
  const RRuleMarker := "RRULE:"

  function Label(pat: Pattern): string {
    match pat
    case StampField(l) => l
    case TextField(l) => l
    case UntilField => RRuleMarker
  }

  /** A digit stands at position `i`. */
  predicate DigitAt(s: string, i: int) {
    0 <= i < |s| && IsDigit(s[i])
  }

  /** A non-space character stands at position `i`. */
  predicate NonSpaceAt(s: string, i: int) {
    0 <= i < |s| && !IsSpace(s[i])
  }

  /** A run reaches at least as far as the class holds. */
  lemma RunEndAtLeast(s: string, i: nat, k: CharClass, n: nat)
    requires i + n <= |s|
    requires forall j :: i <= j < i + n ==> InClass(s[j], k)
    ensures RunEnd(s, i, k) >= i + n
  {
  }

  lemma RunIsDigits(s: string, a: nat, e: nat)
    requires a <= e <= |s|
    requires forall j :: a <= j < e ==> InClass(s[j], Digit)
    ensures AllDigits(s[a..e])
  {
    forall i | 0 <= i < e - a
      ensures IsDigit(s[a..e][i])
    {
      assert InClass(s[a + i], Digit);
    }
  }

  /** `([0-9]+)T([0-9]+)` at position `a`. The first group must stop at the
      `T`, so only its longest run can succeed; the second is greedy, so no
      digit follows it. */
  function StampAt(s: string, a: nat): (r: Option<Capture>)
    requires a <= |s|
    ensures r.Some? ==> r.value.StampDigits? && |r.value.datePart| > 0 && |r.value.timePart| > 0
    ensures r.Some? ==> AllDigits(r.value.datePart) && AllDigits(r.value.timePart)
    ensures r.Some? ==> OccursAt(s, a, r.value.datePart + "T" + r.value.timePart)
    ensures r.Some? ==> !DigitAt(s, a + |r.value.datePart| + 1 + |r.value.timePart|)
  {
    var e1 := RunEnd(s, a, Digit);
    if e1 == a || e1 == |s| || s[e1] != 'T' then None
    else
      var e2 := RunEnd(s, e1 + 1, Digit);
      if e2 == e1 + 1 then None
      else
        RunIsDigits(s, a, e1);
        RunIsDigits(s, e1 + 1, e2);
        assert s[a..e2] == s[a..e1] + "T" + s[e1 + 1..e2];
        Some(StampDigits(s[a..e1], s[e1 + 1..e2]))
  }

  /** Over an occurrence of `w` whose characters are all of class `k`, a
      run of that class covers `w`, and stops right after it when the next
      character is not in the class. */
  lemma RunOver(s: string, a: nat, w: string, k: CharClass)
    requires OccursAt(s, a, w)
    requires forall j :: 0 <= j < |w| ==> InClass(w[j], k)
    ensures RunEnd(s, a, k) >= a + |w|
    ensures a + |w| < |s| && !InClass(s[a + |w|], k) ==> RunEnd(s, a, k) == a + |w|
  {
    forall j | a <= j < a + |w|
      ensures InClass(s[j], k)
    {
      assert s[j] == s[a..a + |w|][j - a];
    }
    RunEndAtLeast(s, a, k, |w|);
  }

  /** The pieces of an occurrence of `d + "T" + t`. */
  lemma StampPieces(s: string, a: nat, d: string, t: string)
    requires OccursAt(s, a, d + "T" + t)
    ensures OccursAt(s, a, d) && s[a + |d|] == 'T' && OccursAt(s, a + |d| + 1, t)
  {
    var w := d + "T" + t;
    assert s[a + |d|] == s[a..a + |w|][|d|];
    assert s[a..a + |d|] == s[a..a + |w|][..|d|];
    assert s[a + |d| + 1..a + |w|] == s[a..a + |w|][|d| + 1..];
  }

  /** Wherever digits, a `T` and digits occur, the stamp pattern matches
      there: its first group is the whole date part, and its second group
      extends the time part. */
  lemma StampAtFinds(s: string, a: nat, d: string, t: string)
    requires |d| > 0 && |t| > 0 && AllDigits(d) && AllDigits(t)
    requires OccursAt(s, a, d + "T" + t)
    ensures StampAt(s, a).Some?
    ensures StampAt(s, a).value.datePart == d && t <= StampAt(s, a).value.timePart
  {
    StampPieces(s, a, d, t);
    StampAtFindsPieces(s, a, d, t);
  }

  lemma StampAtFindsPieces(s: string, a: nat, d: string, t: string)
    requires |d| > 0 && |t| > 0 && AllDigits(d) && AllDigits(t)
    requires OccursAt(s, a, d) && a + |d| < |s| && s[a + |d|] == 'T' && OccursAt(s, a + |d| + 1, t)
    ensures StampAt(s, a) == Some(StampDigits(d, s[a + |d| + 1..RunEnd(s, a + |d| + 1, Digit)]))
    ensures t <= s[a + |d| + 1..RunEnd(s, a + |d| + 1, Digit)]
  {
    var e1 := a + |d|;
    var e2 := RunEnd(s, e1 + 1, Digit);
    assert RunEnd(s, a, Digit) == e1 && e1 + 1 + |t| <= e2 by {
      RunOver(s, a, d, Digit);
      RunOver(s, e1 + 1, t, Digit);
    }
    assert s[a..e1] == d;
    StampAtRuns(s, a, e1, e2);
    PrefixOfSlice(s, e1 + 1, e2, t);
  }

  /** The stamp pattern's groups are the two digit runs around a `T`. */
  lemma StampAtRuns(s: string, a: nat, e1: nat, e2: nat)
    requires a < e1 < |s| && s[e1] == 'T' && e1 + 1 < e2
    requires e1 == RunEnd(s, a, Digit) && e2 == RunEnd(s, e1 + 1, Digit)
    ensures StampAt(s, a) == Some(StampDigits(s[a..e1], s[e1 + 1..e2]))
  {
  }

  lemma PrefixOfSlice(s: string, i: nat, j: nat, t: string)
    requires OccursAt(s, i, t) && i + |t| <= j <= |s|
    ensures t <= s[i..j]
  {
    assert s[i..j][..|t|] == s[i..i + |t|];
  }

  /** `([^\n]+)` at position `a`. */
  function TextAt(s: string, a: nat): (r: Option<Capture>)
    requires a <= |s|
    ensures r.Some? ==> r.value.FieldText? && |r.value.text| > 0 && NoNewline(r.value.text)
    ensures r.Some? ==> OccursAt(s, a, r.value.text)
    ensures r.Some? ==> a + |r.value.text| == |s| || s[a + |r.value.text|] == '\n'
    ensures r.None? <==> a == |s| || s[a] == '\n'
  {
    var e := RunEnd(s, a, NotNewline);
    if e == a then None else Some(FieldText(s[a..e]))
  }

  /** `UNTIL=([0-9]+)T([0-9]+)\S+` at position `u`. The trailing `\S+`
      needs one non-space character after the second group; when the
      character there is whitespace or the text ends, the group gives its
      last digit back (so it needs two digits to start with). */
  function UntilAt(s: string, u: nat): (r: Option<Capture>)
    ensures r.Some? ==> r.value.StampDigits? && |r.value.datePart| > 0 && |r.value.timePart| > 0
    ensures r.Some? ==> AllDigits(r.value.datePart) && AllDigits(r.value.timePart)
    ensures r.Some? ==> OccursAt(s, u, "UNTIL=" + r.value.datePart + "T" + r.value.timePart)
  {
    if !OccursAt(s, u, "UNTIL=") then None
    else
      match StampAt(s, u + 6)
      case None => None
      case Some(c) =>
        OccursAdjacent(s, u, "UNTIL=", c.datePart + "T" + c.timePart);
        assert "UNTIL=" + (c.datePart + "T" + c.timePart) == "UNTIL=" + c.datePart + "T" + c.timePart;
        UntilEnd(s, u, c.datePart, c.timePart)
  }

  /** `UNTIL=` matches at `u` exactly when the stamp pattern matches after
      it and the trailing `\S+` finds a character: one after the time
      digits, or the last of them. The date group is the stamp's, and the
      time group is the stamp's when a non-space character follows it, and
      otherwise the stamp's less its last digit. */
  lemma UntilAtMatches(s: string, u: nat)
    ensures UntilAt(s, u).Some? <==>
      && OccursAt(s, u, "UNTIL=")
      && StampAt(s, u + 6).Some?
      && (|StampAt(s, u + 6).value.timePart| >= 2 ||
          NonSpaceAt(s, u + 6 + |StampAt(s, u + 6).value.datePart| + 1 + |StampAt(s, u + 6).value.timePart|))
    ensures UntilAt(s, u).Some? ==>
      var c := StampAt(s, u + 6).value;
      && UntilAt(s, u).value.datePart == c.datePart
      && UntilAt(s, u).value.timePart <= c.timePart
      && |UntilAt(s, u).value.timePart| + 1 >= |c.timePart|
      && (UntilAt(s, u).value.timePart == c.timePart <==>
            NonSpaceAt(s, u + 6 + |c.datePart| + 1 + |c.timePart|))
  {
  }

  /** What the trailing `\S+` leaves of a stamp matched at `u`: the whole
      time digits when a non-space character follows them, else all but
      the last, which `\S+` then matches; with one digit only, no match. */
  function UntilEnd(s: string, u: nat, d: string, t: string): (r: Option<Capture>)
    requires |d| > 0 && |t| > 0 && AllDigits(d) && AllDigits(t)
    requires OccursAt(s, u, "UNTIL=" + d + "T" + t)
    ensures r.Some? ==> r.value.StampDigits? && |r.value.datePart| > 0 && |r.value.timePart| > 0
    ensures r.Some? ==> AllDigits(r.value.datePart) && AllDigits(r.value.timePart)
    ensures r.Some? ==> OccursAt(s, u, "UNTIL=" + r.value.datePart + "T" + r.value.timePart)
    ensures var e := u + 6 + |d| + 1 + |t|;
      && (NonSpaceAt(s, e) ==> r == Some(StampDigits(d, t)))
      && (!NonSpaceAt(s, e) && |t| >= 2 ==> r == Some(StampDigits(d, t[..|t| - 1])))
      && (!NonSpaceAt(s, e) && |t| < 2 ==> r.None?)
  {
    var w := "UNTIL=" + d + "T" + t;
    var e2 := u + |w|;
    if e2 < |s| && !IsSpace(s[e2]) then Some(StampDigits(d, t))
    else if |t| >= 2 then
      OccursPrefix(s, u, w, |w| - 1);
      DropLast("UNTIL=" + d + "T", t);
      Some(StampDigits(d, t[..|t| - 1]))
    else None
  }

  /** The greedy `\S+` in front of `UNTIL=` is tried longest first, so the
      candidate positions are tried from the last one down to `lo`: the
      result is the last position in range where the rest matches. */
  function LastUntil(s: string, lo: nat, u: int): (r: Option<(nat, Capture)>)
    ensures r.Some? ==> lo <= r.value.0 <= u && UntilAt(s, r.value.0) == Some(r.value.1)
    ensures r.Some? ==> forall q :: r.value.0 < q <= u ==> UntilAt(s, q).None?
    ensures r.None? ==> forall q :: lo <= q <= u ==> UntilAt(s, q).None?
    decreases u
  {
    if u < lo then None
    else
      var c := UntilAt(s, u);
      if c.Some? then Some((u, c.value))
      else
        var m := LastUntil(s, lo, u - 1);
        assert m.None? ==> forall q :: lo <= q <= u ==> q == u || UntilAt(s, q).None?;
        assert m.Some? ==> forall q :: m.value.0 < q <= u ==> q == u || UntilAt(s, q).None?;
        m
  }

  /** `LABEL([0-9]+)T([0-9]+)` at position `p`. */
  function StampFieldAt(s: string, p: nat, name: string): (r: Option<Capture>)
    ensures r.Some? ==> r.value.StampDigits? && |r.value.datePart| > 0 && |r.value.timePart| > 0
    ensures r.Some? ==> AllDigits(r.value.datePart) && AllDigits(r.value.timePart)
    ensures r.Some? ==> OccursAt(s, p, name + r.value.datePart + "T" + r.value.timePart)
    ensures r.Some? ==> !DigitAt(s, p + |name| + |r.value.datePart| + 1 + |r.value.timePart|)
    ensures r.Some? <==> OccursAt(s, p, name) && StampAt(s, p + |name|).Some?
  {
    if !OccursAt(s, p, name) then None
    else
      var c := StampAt(s, p + |name|);
      if c.Some? then
        OccursAdjacent(s, p, name, c.value.datePart + "T" + c.value.timePart);
        assert name + (c.value.datePart + "T" + c.value.timePart)
            == name + c.value.datePart + "T" + c.value.timePart;
        c
      else None
  }

  /** `LABEL([^\n]+)` at position `p`. */
  function TextFieldAt(s: string, p: nat, name: string): (r: Option<Capture>)
    ensures r.Some? ==> r.value.FieldText? && |r.value.text| > 0 && NoNewline(r.value.text)
    ensures r.Some? ==> OccursAt(s, p, name + r.value.text)
    ensures r.Some? ==> p + |name| + |r.value.text| == |s| || s[p + |name| + |r.value.text|] == '\n'
    ensures r.Some? <==> OccursAt(s, p, name) && p + |name| < |s| && s[p + |name|] != '\n'
  {
    if !OccursAt(s, p, name) then None
    else
      var c := TextAt(s, p + |name|);
      if c.Some? then
        OccursAdjacent(s, p, name, c.value.text);
        c
      else None
  }

  /** `RRULE:\S+UNTIL=([0-9]+)T([0-9]+)\S+` at position `p`: the
      `UNTIL=` part is matched at the last position `q` that leaves at
      least one character to `\S+` and lies within the non-space run after
      `RRULE:`. */
  function UntilFieldAt(s: string, p: nat): (r: Option<Capture>)
    ensures r.Some? ==> OccursAt(s, p, RRuleMarker)
    ensures r.Some? ==> r.value.StampDigits? && |r.value.datePart| > 0 && |r.value.timePart| > 0
    ensures r.Some? ==> AllDigits(r.value.datePart) && AllDigits(r.value.timePart)
    ensures r.Some? ==> exists q ::
      && p + 7 <= q <= RunEnd(s, p + 6, NotSpace)
      && UntilAt(s, q) == r
      && forall q' :: q < q' <= RunEnd(s, p + 6, NotSpace) ==> UntilAt(s, q').None?
    ensures OccursAt(s, p, RRuleMarker) && r.None? ==>
      forall q :: p + 7 <= q <= RunEnd(s, p + 6, NotSpace) ==> UntilAt(s, q).None?
  {
    if !OccursAt(s, p, RRuleMarker) then None
    else
      var m := LastUntil(s, p + 7, RunEnd(s, p + 6, NotSpace));
      if m.Some? then
        assert UntilAt(s, m.value.0) == Some(m.value.1);
        Some(m.value.1)
      else None
  }

  /** Does `pat` match at position `p`, and with what groups? */
  function MatchAt(pat: Pattern, s: string, p: nat): (r: Option<Capture>)
    ensures r.Some? ==> OccursAt(s, p, Label(pat))
    ensures r.Some? && pat.StampField? ==>
      && r.value.StampDigits? && |r.value.datePart| > 0 && |r.value.timePart| > 0
      && AllDigits(r.value.datePart) && AllDigits(r.value.timePart)
      && OccursAt(s, p, pat.name + r.value.datePart + "T" + r.value.timePart)
      && !DigitAt(s, p + |pat.name| + |r.value.datePart| + 1 + |r.value.timePart|)
    ensures r.Some? && pat.TextField? ==>
      && r.value.FieldText? && |r.value.text| > 0 && NoNewline(r.value.text)
      && OccursAt(s, p, pat.name + r.value.text)
      && (p + |pat.name| + |r.value.text| == |s| || s[p + |pat.name| + |r.value.text|] == '\n')
    ensures r.Some? && pat.UntilField? ==>
      && r.value.StampDigits? && AllDigits(r.value.datePart) && AllDigits(r.value.timePart)
      && exists q :: p + 7 <= q && UntilAt(s, q) == r
  {
    match pat
    case StampField(name) => StampFieldAt(s, p, name)
    case TextField(name) => TextFieldAt(s, p, name)
    case UntilField => UntilFieldAt(s, p)
  }

  /** `pattern.search(s)`: the leftmost position where the pattern matches. */
  function Search(pat: Pattern, s: string, from: nat): (r: Option<(nat, Capture)>)
    decreases |s| + 1 - from
    ensures r.Some? ==> from <= r.value.0 && MatchAt(pat, s, r.value.0) == Some(r.value.1)
    ensures r.Some? ==> forall q :: from <= q < r.value.0 ==> MatchAt(pat, s, q).None?
    ensures r.None? ==> forall q :: from <= q ==> MatchAt(pat, s, q).None?
  {
    if from > |s| then None
    else
      match MatchAt(pat, s, from)
      case Some(c) => Some((from, c))
      case None => Search(pat, s, from + 1)
  }

  /** A pattern can only match where its label occurs. */
  lemma SearchNeedsLabel(pat: Pattern, s: string)
    ensures !Contains(s, Label(pat)) ==> Search(pat, s, 0).None?
  {
    ContainsMeansOccurs(s, Label(pat));
  }

  // ---- strptime(digits, '%Y%m%d%H%M%S') -----------------------------------

  /** The fields after the four-digit year, in format order. */
  datatype Field = Month | Day | Hour | Minute | Second

  /** The two-digit alternatives of each field's expression:
      `1[0-2]|0[1-9]`, `3[01]|[12]\d|0[1-9]`, `2[0-3]|[01]\d`, `[0-5]\d`,
      `6[01]|[0-5]\d`. */
  predicate TwoDigitsFit(f: Field, v: int) {
    match f
    case Month => 1 <= v <= 12
    case Day => 1 <= v <= 31
    case Hour => 0 <= v <= 23
    case Minute => 0 <= v <= 59
    case Second => 0 <= v <= 61
  }

  /** The one-digit alternative: `[1-9]` for month and day, `\d` otherwise. */
  predicate OneDigitFits(f: Field, v: int) {
    if f == Month || f == Day then 1 <= v <= 9 else 0 <= v <= 9
  }

  /** The first match, in the regular-expression engine's backtracking
      order, of the fields `fs` from position `i`: each field tries its
      two-digit alternatives before its one-digit one. Gives the field
      values and where the match ends. */
  function MatchFields(s: string, i: nat, fs: seq<Field>): (r: Option<(seq<int>, nat)>)
    requires AllDigits(s) && i <= |s|
    ensures r.Some? ==> |r.value.0| == |fs| && i + |fs| <= r.value.1 <= i + 2 * |fs| && r.value.1 <= |s|
    decreases |fs|
  {
    if fs == [] then Some(([], i))
    else
      var two := if i + 2 <= |s| && TwoDigitsFit(fs[0], Value(s[i..i + 2]))
                 then MatchFields(s, i + 2, fs[1..]) else None;
      if two.Some? then Some(([Value(s[i..i + 2])] + two.value.0, two.value.1))
      else if i + 1 <= |s| && OneDigitFits(fs[0], Value(s[i..i + 1])) then
        match MatchFields(s, i + 1, fs[1..])
        case Some(m) => Some(([Value(s[i..i + 1])] + m.0, m.1))
        case None => None
      else None
  }

  /** Whichever alternative each field took, its value lies in the field's
      two-digit range (the one-digit ranges are contained in those). */
  lemma {:induction false} MatchFieldsFit(s: string, i: nat, fs: seq<Field>)
    requires AllDigits(s) && i <= |s|
    ensures MatchFields(s, i, fs).Some? ==>
      forall k :: 0 <= k < |fs| ==> TwoDigitsFit(fs[k], MatchFields(s, i, fs).value.0[k])
    decreases |fs|
  {
    if fs != [] {
      if i + 2 <= |s| {
        MatchFieldsFit(s, i + 2, fs[1..]);
      }
      if i + 1 <= |s| {
        MatchFieldsFit(s, i + 1, fs[1..]);
      }
    }
  }

  /** Where every field stands as two digits whose value fits it, the
      fields are read two digits at a time. */
  lemma {:induction false} MatchFieldsTwoDigits(s: string, i: nat, fs: seq<Field>, vs: seq<int>)
    requires AllDigits(s) && i + 2 * |fs| <= |s| && |vs| == |fs|
    requires forall k :: 0 <= k < |fs| ==>
      Value(s[i + 2 * k..i + 2 * k + 2]) == vs[k] && TwoDigitsFit(fs[k], vs[k])
    ensures MatchFields(s, i, fs) == Some((vs, i + 2 * |fs|))
    decreases |fs|
  {
    if fs != [] {
      assert MatchFields(s, i + 2, fs[1..]) == Some((vs[1..], i + 2 * |fs|)) by {
        forall k | 0 <= k < |fs| - 1
          ensures Value(s[i + 2 + 2 * k..i + 2 + 2 * k + 2]) == vs[1..][k] && TwoDigitsFit(fs[1..][k], vs[1..][k])
        {
          assert i + 2 * (k + 1) == i + 2 + 2 * k;
        }
        MatchFieldsTwoDigits(s, i + 2, fs[1..], vs[1..]);
      }
      var v := Value(s[i..i + 2]);
      assert v == vs[0] && TwoDigitsFit(fs[0], v);
      assert vs == [v] + vs[1..];
      assert MatchFields(s, i, fs) == Some(([v] + vs[1..], i + 2 * |fs|));
    }
  }

  /** A field that takes its one-digit alternative leaves the match short
      of two digits per field. */
  lemma OneDigitShort(s: string, i: nat, fs: seq<Field>)
    requires AllDigits(s) && i <= |s| && fs != [] && MatchFields(s, i, fs).Some?
    ensures MatchFields(s, i, fs).value.1 == i + 2 * |fs| ==>
      i + 2 <= |s| && TwoDigitsFit(fs[0], Value(s[i..i + 2])) && MatchFields(s, i + 2, fs[1..]).Some?
  {
    if !(i + 2 <= |s| && TwoDigitsFit(fs[0], Value(s[i..i + 2])) && MatchFields(s, i + 2, fs[1..]).Some?) {
      assert MatchFields(s, i, fs).value.1 == MatchFields(s, i + 1, fs[1..]).value.1;
    }
  }

  /** A match that ends two digits per field along took the two-digit
      alternative of every field. */
  lemma {:induction false} MatchFieldsFullWidth(s: string, i: nat, fs: seq<Field>)
    requires AllDigits(s) && i <= |s|
    requires MatchFields(s, i, fs).Some? && MatchFields(s, i, fs).value.1 == i + 2 * |fs|
    ensures forall k :: 0 <= k < |fs| ==>
      i + 2 * k + 2 <= |s| && MatchFields(s, i, fs).value.0[k] == Value(s[i + 2 * k..i + 2 * k + 2])
    decreases |fs|
  {
    if fs != [] {
      OneDigitShort(s, i, fs);
      var rest := MatchFields(s, i + 2, fs[1..]).value;
      var vs := MatchFields(s, i, fs).value.0;
      assert vs == [Value(s[i..i + 2])] + rest.0 && rest.1 == i + 2 + 2 * |fs[1..]|;
      MatchFieldsFullWidth(s, i + 2, fs[1..]);
      forall k | 1 <= k < |fs|
        ensures i + 2 * k + 2 <= |s| && vs[k] == Value(s[i + 2 * k..i + 2 * k + 2])
      {
        var j := k - 1;
        assert vs[k] == rest.0[j];
        assert i + 2 + 2 * j == i + 2 * k;
      }
    }
  }

  const StampFields := [Month, Day, Hour, Minute, Second]

  /** `datetime.strptime(digits, '%Y%m%d%H%M%S')`: `None` where it raises
      ValueError (no match, unconverted digits left over, or no such date
      or time). */
  function ReadStamp(digits: string): (r: Option<DateTime>)
    requires AllDigits(digits)
    ensures r.Some? ==> ValidDateTime(r.value) && r.value.date.year <= 9999
    ensures r.Some? ==> 9 <= |digits| <= 14 && r.value.date.year == Value(digits[..4])
  {
    if |digits| < 4 then None
    else
      match MatchFields(digits, 4, StampFields)
      case None => None
      case Some(m) =>
        var x := DateTime(Date(Value(digits[..4]), m.0[0], m.0[1]), Time(m.0[2], m.0[3], m.0[4]));
        if m.1 == |digits| && ValidDateTime(x) then Some(x) else None
  }

  /** The fixed-width reading of fourteen digits: year, month, day, hour,
      minute and second, four digits then two each. */
  function FixedReading(digits: string): DateTime
    requires AllDigits(digits) && |digits| == 14
  {
    DateTime(Date(Value(digits[..4]), Value(digits[4..6]), Value(digits[6..8])),
             Time(Value(digits[8..10]), Value(digits[10..12]), Value(digits[12..14])))
  }

  /** A full-length stamp is read exactly when its fixed-width reading is
      a real date and time (no month 13, no 30 February, no second 60),
      and then it is read as that. */
  lemma ReadFullStamp(digits: string)
    requires AllDigits(digits) && |digits| == 14
    ensures ReadStamp(digits).Some? <==> ValidDateTime(FixedReading(digits))
    ensures ReadStamp(digits).Some? ==> ReadStamp(digits).value == FixedReading(digits)
  {
    var x := FixedReading(digits);
    var vs := [x.date.month, x.date.day, x.time.hour, x.time.minute, x.time.second];
    if ValidDateTime(x) {
      forall k | 0 <= k < 5
        ensures Value(digits[4 + 2 * k..4 + 2 * k + 2]) == vs[k] && TwoDigitsFit(StampFields[k], vs[k])
      {
      }
      MatchFieldsTwoDigits(digits, 4, StampFields, vs);
    }
    if ReadStamp(digits).Some? {
      var m := MatchFields(digits, 4, StampFields).value;
      MatchFieldsFullWidth(digits, 4, StampFields);
      assert m.0 == vs;
    }
  }

  /** `pattern.sub(r'\1\2', match.group())` followed by strptime. */
  function StampOf(c: Capture): (r: Option<DateTime>)
    requires c.StampDigits? && AllDigits(c.datePart) && AllDigits(c.timePart)
    ensures r.Some? ==> ValidDateTime(r.value) && r.value.date.year <= 9999
  {
    ReadStamp(c.datePart + c.timePart)
  }

  /** A date-time's `%Y%m%d` digits. */
  function DateDigits(x: DateTime): (r: string)
    requires ValidDateTime(x) && x.date.year <= 9999
    ensures |r| == 8 && AllDigits(r)
  {
    Numeral(x.date.year, 4) + Numeral(x.date.month, 2) + Numeral(x.date.day, 2)
  }

  /** A date-time's `%H%M%S` digits. */
  function TimeDigits(x: DateTime): (r: string)
    requires ValidDateTime(x)
    ensures |r| == 6 && AllDigits(r)
  {
    Numeral(x.time.hour, 2) + Numeral(x.time.minute, 2) + Numeral(x.time.second, 2)
  }

  /** Every date-time of a four-digit year, written as an ICS stamp
      `YYYYMMDDTHHMMSS`, is read back as itself. */
  lemma StampRoundTrip(x: DateTime)
    requires ValidDateTime(x) && x.date.year <= 9999
    ensures StampOf(StampDigits(DateDigits(x), TimeDigits(x))) == Some(x)
  {
    var d, t := DateDigits(x), TimeDigits(x);
    var s := d + t;
    assert Value(s[..4]) == x.date.year by {
      assert s[..4] == Numeral(x.date.year, 4);
      ValueOfNumeral(x.date.year, 4);
    }
    assert Value(s[4..6]) == x.date.month by {
      assert s[4..6] == Numeral(x.date.month, 2);
      ValueOfNumeral(x.date.month, 2);
    }
    assert Value(s[6..8]) == x.date.day by {
      assert s[6..8] == Numeral(x.date.day, 2);
      ValueOfNumeral(x.date.day, 2);
    }
    assert Value(s[8..10]) == x.time.hour by {
      assert s[8..10] == Numeral(x.time.hour, 2);
      ValueOfNumeral(x.time.hour, 2);
    }
    assert Value(s[10..12]) == x.time.minute by {
      assert s[10..12] == Numeral(x.time.minute, 2);
      ValueOfNumeral(x.time.minute, 2);
    }
    assert Value(s[12..14]) == x.time.second by {
      assert s[12..14] == Numeral(x.time.second, 2);
      ValueOfNumeral(x.time.second, 2);
    }
    assert FixedReading(s) == x;
    ReadFullStamp(s);
  }

  /** Text and date-time fields of an event as the source accepts them. */
  predicate WellFormed(ev: Event) {
    ValidDateTime(ev.start) && ValidDateTime(ev.end) &&
    NoNewline(ev.location) && NoNewline(ev.summary)
  }

  /** process_event: the event tuple when DTSTART, DTEND and SUMMARY all
      match, `None` otherwise; LOCATION defaults to the empty string. */
  function ProcessEvent(block: string): (r: Result<Option<Event>, Fault>)
    ensures r.Success? && r.value.Some? ==> WellFormed(r.value.value) && |r.value.value.summary| > 0
    ensures r.Success? && r.value.Some? ==> Contains(block, "SUMMARY:" + r.value.value.summary)
    ensures r.Success? && r.value.Some? && r.value.value.location != "" ==>
      Contains(block, "LOCATION:" + r.value.value.location)
    ensures !Contains(block, "DTSTART:") || !Contains(block, "DTEND:") || !Contains(block, "SUMMARY:") ==>
      r == Success(None)
    ensures Search(DtStart, block, 0).None? || Search(DtEnd, block, 0).None? || Search(Summary, block, 0).None?
      ==> r == Success(None)
    ensures Search(DtStart, block, 0).Some? && Search(DtEnd, block, 0).Some? && Search(Summary, block, 0).Some? ==>
      var start, end := StampOf(Search(DtStart, block, 0).value.1), StampOf(Search(DtEnd, block, 0).value.1);
      var location := Search(Location, block, 0);
      && (r.Failure? <==> start.None? || end.None?)
      && (r.Failure? ==> r.error == StampUnreadable)
      && (r.Success? ==> r.value == Some(Event(start.value, end.value,
            if location.Some? then location.value.1.text else "",
            Search(Summary, block, 0).value.1.text)))
  {
    var rawStart := Search(DtStart, block, 0);
    var rawEnd := Search(DtEnd, block, 0);
    var rawLocation := Search(Location, block, 0);
    var rawSummary := Search(Summary, block, 0);
    SearchNeedsLabel(DtStart, block);
    SearchNeedsLabel(DtEnd, block);
    SearchNeedsLabel(Summary, block);
    if rawStart.Some? && rawEnd.Some? && rawSummary.Some? then
      var start := StampOf(rawStart.value.1);
      var end := StampOf(rawEnd.value.1);
      if start.None? || end.None? then Failure(StampUnreadable)
      else
        var location := if rawLocation.Some? then rawLocation.value.1.text else "";
        var summary := rawSummary.value.1.text;
        ContainsMeansOccurs(block, "SUMMARY:" + summary);
        ContainsMeansOccurs(block, "LOCATION:" + location);
        assert rawLocation.Some? ==> OccursAt(block, rawLocation.value.0, "LOCATION:" + location);
        Success(Some(Event(start.value, end.value, location, summary)))
    else Success(None)
  }

  /** The UNTIL bound of a recurring block (process_cal4.py:37-40). */
  function UntilOf(block: string): (r: Result<DateTime, Fault>)
    ensures r.Success? ==> ValidDateTime(r.value) && Contains(block, RRuleMarker)
    ensures !Contains(block, RRuleMarker) ==> r == Failure(UntilNotFound)
    ensures r == Failure(UntilNotFound) <==> Search(UntilField, block, 0).None?
    ensures Search(UntilField, block, 0).Some? ==>
      var c := Search(UntilField, block, 0).value.1;
      && Contains(block, "UNTIL=" + c.datePart + "T" + c.timePart)
      && (r.Success? <==> StampOf(c).Some?)
      && (r.Success? ==> r.value == StampOf(c).value)
      && (r.Failure? ==> r.error == StampUnreadable)
  {
    match Search(UntilField, block, 0)
    case None =>
      SearchNeedsLabel(UntilField, block);
      Failure(UntilNotFound)
    case Some((p, c)) =>
      ContainsMeansOccurs(block, RRuleMarker);
      UntilCaptureOccurs(block, p, c);
      match StampOf(c)
      case None => Failure(StampUnreadable)
      case Some(until) => Success(until)
  }

  /** The UNTIL capture of a match stands in the block after `UNTIL=`. */
  lemma UntilCaptureOccurs(block: string, p: nat, c: Capture)
    requires MatchAt(UntilField, block, p) == Some(c)
    ensures c.StampDigits? && Contains(block, "UNTIL=" + c.datePart + "T" + c.timePart)
  {
    var q :| p + 7 <= q && UntilAt(block, q) == Some(c);
    ContainsMeansOccurs(block, "UNTIL=" + c.datePart + "T" + c.timePart);
  }
}
