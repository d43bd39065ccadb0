/** The event tuple `(start, end, location, summary)` that process_event
    builds and get_events_for_day collects, with the order `list.sort()`
    puts such tuples in: Python compares tuples field by field, datetimes
    component by component and strings code point by code point. */
module Events {
  import opened Calendar

  datatype Event = Event(start: DateTime, end: DateTime, location: string, summary: string)

  /** Three-way lexicographic comparison (-1, 0 or 1); a proper prefix
      comes first, as with Python sequences and strings. */
  function Compare(a: seq<int>, b: seq<int>): (c: int)
    ensures -1 <= c <= 1
  {
    if |a| == 0 then (if |b| == 0 then 0 else -1)
    else if |b| == 0 then 1
    else if a[0] < b[0] then -1
    else if a[0] > b[0] then 1
    else Compare(a[1..], b[1..])
  }

  lemma {:induction false} CompareZero(a: seq<int>, b: seq<int>)
    ensures Compare(a, b) == 0 <==> a == b
  {
    if |a| > 0 && |b| > 0 && a[0] == b[0] {
      CompareZero(a[1..], b[1..]);
      assert a == [a[0]] + a[1..] && b == [b[0]] + b[1..];
    }
  }

  lemma {:induction false} CompareFlip(a: seq<int>, b: seq<int>)
    ensures Compare(a, b) == -Compare(b, a)
  {
    if |a| > 0 && |b| > 0 && a[0] == b[0] {
      CompareFlip(a[1..], b[1..]);
    }
  }

  lemma {:induction false} CompareTransitive(a: seq<int>, b: seq<int>, c: seq<int>)
    requires Compare(a, b) <= 0 && Compare(b, c) <= 0
    ensures Compare(a, c) <= 0
  {
    if |a| > 0 && |b| > 0 && |c| > 0 && a[0] == b[0] == c[0] {
      CompareTransitive(a[1..], b[1..], c[1..]);
    }
  }

  function DateTimeKey(x: DateTime): seq<int> {
    [x.date.year, x.date.month, x.date.day, x.time.hour, x.time.minute, x.time.second]
  }

  function Codes(s: string): (r: seq<int>)
    ensures |r| == |s|
  {
    seq(|s|, i requires 0 <= i < |s| => s[i] as int)
  }

  lemma CodesInjective(s: string, t: string)
    requires Codes(s) == Codes(t)
    ensures s == t
  {
    forall i | 0 <= i < |s|
      ensures s[i] == t[i]
    {
      assert Codes(s)[i] == Codes(t)[i];
    }
  }

  /** One step of the lexicographic comparison, on sequences of any shape. */
  lemma CompareStep(a: seq<int>, b: seq<int>)
    requires |a| > 0 && |b| > 0
    ensures Compare(a, b) <= 0 <==> a[0] < b[0] || (a[0] == b[0] && Compare(a[1..], b[1..]) <= 0)
  {
  }

  /** Comparing datetime keys is Python's datetime order. */
  lemma DateTimeKeyOrder(a: DateTime, b: DateTime)
    ensures Compare(DateTimeKey(a), DateTimeKey(b)) <= 0 <==> DateTimeLessEq(a, b)
  {
    var ka, kb := DateTimeKey(a), DateTimeKey(b);
    CompareStep(ka, kb);
    CompareStep(ka[1..], kb[1..]);
    CompareStep(ka[2..], kb[2..]);
    CompareStep(ka[3..], kb[3..]);
    CompareStep(ka[4..], kb[4..]);
    CompareStep(ka[5..], kb[5..]);
    assert ka[1..][1..] == ka[2..] && kb[1..][1..] == kb[2..];
    assert ka[2..][1..] == ka[3..] && kb[2..][1..] == kb[3..];
    assert ka[3..][1..] == ka[4..] && kb[3..][1..] == kb[4..];
    assert ka[4..][1..] == ka[5..] && kb[4..][1..] == kb[5..];
    assert ka[5..][1..] == [] && kb[5..][1..] == [];
  }

  /** Equal keys, equal date-times; equal code sequences, equal strings. */
  lemma KeysEqual(a: DateTime, b: DateTime, s: string, t: string)
    ensures DateTimeKey(a) == DateTimeKey(b) <==> a == b
    ensures Codes(s) == Codes(t) <==> s == t
  {
    if DateTimeKey(a) == DateTimeKey(b) {
      assert DateTimeKey(a)[0] == DateTimeKey(b)[0] && DateTimeKey(a)[1] == DateTimeKey(b)[1];
      assert DateTimeKey(a)[2] == DateTimeKey(b)[2] && DateTimeKey(a)[3] == DateTimeKey(b)[3];
      assert DateTimeKey(a)[4] == DateTimeKey(b)[4] && DateTimeKey(a)[5] == DateTimeKey(b)[5];
    }
    if Codes(s) == Codes(t) {
      CodesInjective(s, t);
    }
  }

  /** Python's `<` / `==` on event tuples, as one three-way comparison:
      zero exactly for the same tuple. */
  function CompareEvents(x: Event, y: Event): (c: int)
    ensures -1 <= c <= 1
    ensures c == 0 <==> x == y
  {
    CompareZero(DateTimeKey(x.start), DateTimeKey(y.start));
    CompareZero(DateTimeKey(x.end), DateTimeKey(y.end));
    CompareZero(Codes(x.location), Codes(y.location));
    CompareZero(Codes(x.summary), Codes(y.summary));
    KeysEqual(x.start, y.start, x.location, y.location);
    KeysEqual(x.end, y.end, x.summary, y.summary);
    var c1 := Compare(DateTimeKey(x.start), DateTimeKey(y.start));
    if c1 != 0 then c1 else
    var c2 := Compare(DateTimeKey(x.end), DateTimeKey(y.end));
    if c2 != 0 then c2 else
    var c3 := Compare(Codes(x.location), Codes(y.location));
    if c3 != 0 then c3 else
    Compare(Codes(x.summary), Codes(y.summary))
  }

  predicate EventLessEq(x: Event, y: Event) {
    CompareEvents(x, y) <= 0
  }

  lemma EventOrderTotal(x: Event, y: Event)
    ensures EventLessEq(x, y) || EventLessEq(y, x)
  {
    CompareFlip(DateTimeKey(x.start), DateTimeKey(y.start));
    CompareFlip(DateTimeKey(x.end), DateTimeKey(y.end));
    CompareFlip(Codes(x.location), Codes(y.location));
    CompareFlip(Codes(x.summary), Codes(y.summary));
  }

  lemma EventOrderAntisymmetric(x: Event, y: Event)
    requires EventLessEq(x, y) && EventLessEq(y, x)
    ensures x == y
  {
    CompareFlip(DateTimeKey(x.start), DateTimeKey(y.start));
    CompareFlip(DateTimeKey(x.end), DateTimeKey(y.end));
    CompareFlip(Codes(x.location), Codes(y.location));
    CompareFlip(Codes(x.summary), Codes(y.summary));
    CompareZero(DateTimeKey(x.start), DateTimeKey(y.start));
    CompareZero(DateTimeKey(x.end), DateTimeKey(y.end));
    CompareZero(Codes(x.location), Codes(y.location));
    CompareZero(Codes(x.summary), Codes(y.summary));
    CodesInjective(x.location, y.location);
    CodesInjective(x.summary, y.summary);
  }

  lemma EventOrderTransitive(x: Event, y: Event, z: Event)
    requires EventLessEq(x, y) && EventLessEq(y, z)
    ensures EventLessEq(x, z)
  {
    var xs, ys, zs := DateTimeKey(x.start), DateTimeKey(y.start), DateTimeKey(z.start);
    var xe, ye, ze := DateTimeKey(x.end), DateTimeKey(y.end), DateTimeKey(z.end);
    var xl, yl, zl := Codes(x.location), Codes(y.location), Codes(z.location);
    var xm, ym, zm := Codes(x.summary), Codes(y.summary), Codes(z.summary);
    CompareZero(xs, ys); CompareZero(ys, zs); CompareZero(xs, zs);
    CompareZero(xe, ye); CompareZero(ye, ze); CompareZero(xe, ze);
    CompareZero(xl, yl); CompareZero(yl, zl); CompareZero(xl, zl);
    CompareTransitive(xs, ys, zs);
    if Compare(xs, zs) == 0 {
      CompareFlip(xs, ys);
      CompareTransitive(ys, zs, xs);
      CompareTransitive(xe, ye, ze);
      if Compare(xe, ze) == 0 {
        CompareFlip(xe, ye);
        CompareTransitive(ye, ze, xe);
        CompareTransitive(xl, yl, zl);
        if Compare(xl, zl) == 0 {
          CompareFlip(xl, yl);
          CompareTransitive(yl, zl, xl);
          CompareTransitive(xm, ym, zm);
        }
      }
    }
  }

  /** Ascending in tuple order, as `list.sort()` leaves a list. */
  predicate Sorted(xs: seq<Event>) {
    forall i, j :: 0 <= i < j < |xs| ==> EventLessEq(xs[i], xs[j])
  }

  /** Tuple order puts the earlier start first. */
  lemma EventOrderByStart(x: Event, y: Event)
    requires EventLessEq(x, y)
    ensures DateTimeLessEq(x.start, y.start)
  {
    DateTimeKeyOrder(x.start, y.start);
    CompareZero(DateTimeKey(x.start), DateTimeKey(y.start));
    KeysEqual(x.start, y.start, x.location, y.location);
  }

  /** A sorted list of events is in order of start time. */
  lemma SortedByStart(xs: seq<Event>)
    requires Sorted(xs)
    ensures forall i, j :: 0 <= i < j < |xs| ==> DateTimeLessEq(xs[i].start, xs[j].start)
  {
    forall i, j | 0 <= i < j < |xs|
      ensures DateTimeLessEq(xs[i].start, xs[j].start)
    {
      EventOrderByStart(xs[i], xs[j]);
    }
  }

  lemma SortedCons(y: Event, ys: seq<Event>)
    requires Sorted(ys)
    requires forall e :: e in ys ==> EventLessEq(y, e)
    ensures Sorted([y] + ys)
  {
    var r := [y] + ys;
    forall i, j | 0 <= i < j < |r|
      ensures EventLessEq(r[i], r[j])
    {
      if i > 0 {
        assert r[i] == ys[i - 1] && r[j] == ys[j - 1];
      } else {
        assert r[j] in ys;
      }
    }
  }

  lemma InsertFront(x: Event, xs: seq<Event>)
    requires Sorted(xs) && |xs| > 0 && EventLessEq(x, xs[0])
    ensures Sorted([x] + xs)
  {
    forall e | e in xs
      ensures EventLessEq(x, e)
    {
      var j :| 0 <= j < |xs| && xs[j] == e;
      if j > 0 {
        EventOrderTransitive(x, xs[0], e);
      }
    }
    SortedCons(x, xs);
  }

  lemma InsertBehind(x: Event, xs: seq<Event>, rest: seq<Event>)
    requires Sorted(xs) && |xs| > 0 && !EventLessEq(x, xs[0])
    requires Sorted(rest) && multiset(rest) == multiset(xs[1..]) + multiset{x}
    ensures Sorted([xs[0]] + rest)
  {
    forall e | e in rest
      ensures EventLessEq(xs[0], e)
    {
      assert e in multiset(rest);
      if e == x {
        EventOrderTotal(x, xs[0]);
      } else {
        assert e in multiset(xs[1..]);
        var j :| 0 <= j < |xs[1..]| && xs[1..][j] == e;
        assert xs[j + 1] == e;
      }
    }
    SortedCons(xs[0], rest);
  }

  /** Insert one tuple into a sorted list, keeping it sorted. */
  function Insert(x: Event, xs: seq<Event>): (r: seq<Event>)
    requires Sorted(xs)
    ensures Sorted(r)
    ensures multiset(r) == multiset(xs) + multiset{x}
  {
    if xs == [] then [x]
    else if EventLessEq(x, xs[0]) then
      InsertFront(x, xs);
      [x] + xs
    else
      var rest := Insert(x, xs[1..]);
      InsertBehind(x, xs, rest);
      assert xs == [xs[0]] + xs[1..];
      [xs[0]] + rest
  }

  /** `list.sort()` on a list of event tuples: the result is sorted and
      holds the same tuples, each as often as before. */
  function SortEvents(xs: seq<Event>): (r: seq<Event>)
    ensures Sorted(r)
    ensures multiset(r) == multiset(xs)
  {
    if xs == [] then []
    else
      assert xs == xs[..|xs| - 1] + [xs[|xs| - 1]];
      Insert(xs[|xs| - 1], SortEvents(xs[..|xs| - 1]))
  }

  lemma SortedHeadLeast(a: seq<Event>, e: Event)
    requires Sorted(a) && e in a
    ensures EventLessEq(a[0], e)
  {
    var j :| 0 <= j < |a| && a[j] == e;
    if j == 0 {
      EventOrderTotal(e, e);
    }
  }

  lemma MultisetTail(a: seq<Event>, b: seq<Event>)
    requires |a| > 0 && |b| > 0 && a[0] == b[0]
    requires multiset(a) == multiset(b)
    ensures multiset(a[1..]) == multiset(b[1..])
  {
    assert a == [a[0]] + a[1..] && b == [b[0]] + b[1..];
    assert multiset(a) == multiset{a[0]} + multiset(a[1..]);
    assert multiset(b) == multiset{b[0]} + multiset(b[1..]);
    calc {
      multiset(a[1..]);
      multiset(a) - multiset{a[0]};
      multiset(b) - multiset{b[0]};
      multiset(b[1..]);
    }
  }

  /** The sorted order of a collection of tuples is unique, so the
      particular algorithm (and its stability) cannot change the agenda. */
  lemma {:induction false} SortedUnique(a: seq<Event>, b: seq<Event>)
    requires Sorted(a) && Sorted(b)
    requires multiset(a) == multiset(b)
    ensures a == b
    decreases |a|
  {
    if |a| == 0 {
      assert |b| == |multiset(b)| == 0;
    } else {
      assert |b| == |multiset(b)| == |multiset(a)| == |a|;
      assert a[0] in multiset(b) && b[0] in multiset(a);
      SortedHeadLeast(a, b[0]);
      SortedHeadLeast(b, a[0]);
      EventOrderAntisymmetric(a[0], b[0]);
      MultisetTail(a, b);
      assert Sorted(a[1..]) && Sorted(b[1..]);
      SortedUnique(a[1..], b[1..]);
      assert a == [a[0]] + a[1..] && b == [b[0]] + b[1..];
    }
  }
}
