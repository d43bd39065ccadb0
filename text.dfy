/** Strings as sequences of characters: literal substring search (what
    `re.search` and `re.split` do with a pattern that has no special
    characters), joining, and fixed-width decimal numerals. */
module Text {
  import opened Wrappers

  /** `w` occurs in `s` at position `p`. */
  predicate OccursAt(s: string, p: int, w: string) {
    0 <= p && p + |w| <= |s| && s[p..p + |w|] == w
  }

  /** Two adjacent occurrences are one occurrence of the two together. */
  lemma OccursAdjacent(s: string, p: int, a: string, b: string)
    requires OccursAt(s, p, a) && OccursAt(s, p + |a|, b)
    ensures OccursAt(s, p, a + b)
  {
    assert s[p..p + |a + b|] == s[p..p + |a|] + s[p + |a|..p + |a| + |b|];
  }

  /** An occurrence of `w` is one of each prefix of `w`. */
  lemma OccursPrefix(s: string, p: int, w: string, n: nat)
    requires OccursAt(s, p, w) && n <= |w|
    ensures OccursAt(s, p, w[..n])
  {
    assert s[p..p + n] == s[p..p + |w|][..n];
  }

  lemma DropLast(a: string, t: string)
    requires |t| > 0
    ensures (a + t)[..|a + t| - 1] == a + t[..|t| - 1]
  {
  }

  /** Leftmost occurrence of `w` in `s` at or after position `i`. */
  function FindFrom(s: string, w: string, i: nat): (r: Option<nat>)
    decreases |s| - i
    ensures r.Some? ==> i <= r.value && OccursAt(s, r.value, w)
    ensures r.Some? ==> forall q :: i <= q < r.value ==> !OccursAt(s, q, w)
    ensures r.None? ==> forall q :: i <= q ==> !OccursAt(s, q, w)
  {
    if i + |w| > |s| then None
    else if s[i..i + |w|] == w then Some(i)
    else FindFrom(s, w, i + 1)
  }

  /** `re.search(w, s) != None` for a literal pattern `w`. */
  predicate Contains(s: string, w: string) {
    FindFrom(s, w, 0).Some?
  }

  lemma ContainsMeansOccurs(s: string, w: string)
    ensures Contains(s, w) <==> exists q :: OccursAt(s, q, w)
  {
    if !Contains(s, w) {
      forall q ensures !OccursAt(s, q, w) {
        if q >= 0 {
          assert 0 <= q;
        }
      }
    }
  }

  /** The leftmost occurrence is the one search finds. */
  lemma LeftmostFound(s: string, w: string, p: int)
    requires OccursAt(s, p, w)
    requires forall q :: 0 <= q < p ==> !OccursAt(s, q, w)
    ensures FindFrom(s, w, 0) == Some(p)
  {
  }

  /** `re.split(sep, s)` for a non-empty literal pattern: cut at each
      leftmost non-overlapping occurrence, dropping the separator. */
  function Split(s: string, sep: string): (parts: seq<string>)
    requires |sep| > 0
    ensures |parts| >= 1
    decreases |s|
  {
    match FindFrom(s, sep, 0)
    case None => [s]
    case Some(p) => [s[..p]] + Split(s[p + |sep|..], sep)
  }

  /** `sep.join(parts)`. */
  function Join(parts: seq<string>, sep: string): string
    decreases |parts|
  {
    if |parts| == 0 then ""
    else if |parts| == 1 then parts[0]
    else parts[0] + sep + Join(parts[1..], sep)
  }

  /** Splitting loses nothing: joining the pieces with the separator gives
      the text back. */
  lemma {:induction false} JoinSplit(s: string, sep: string)
    requires |sep| > 0
    ensures Join(Split(s, sep), sep) == s
    decreases |s|
  {
    match FindFrom(s, sep, 0)
    case None =>
    case Some(p) =>
      var rest := s[p + |sep|..];
      var parts := Split(s, sep);
      assert parts == [s[..p]] + Split(rest, sep);
      assert parts[1..] == Split(rest, sep);
      calc {
        Join(parts, sep);
        parts[0] + sep + Join(parts[1..], sep);
        { JoinSplit(rest, sep); }
        s[..p] + sep + rest;
        { assert s[p..p + |sep|] == sep; }
        s;
      }
  }

  /** No piece of a split contains the separator. */
  lemma {:induction false} SplitPiecesFree(s: string, sep: string)
    requires |sep| > 0
    ensures forall k :: 0 <= k < |Split(s, sep)| ==> !Contains(Split(s, sep)[k], sep)
    decreases |s|
  {
    match FindFrom(s, sep, 0)
    case None =>
    case Some(p) =>
      var rest := s[p + |sep|..];
      SplitPiecesFree(rest, sep);
      var head := s[..p];
      if Contains(head, sep) {
        var q := FindFrom(head, sep, 0).value;
        assert head[q..q + |sep|] == s[q..q + |sep|];
        assert OccursAt(s, q, sep);
        assert false;
      }
      assert Split(s, sep) == [head] + Split(rest, sep);
  }

  /** For a one-character separator that no piece contains, splitting
      undoes joining. */
  lemma {:induction false} SplitJoin(parts: seq<string>, c: char)
    requires |parts| >= 1
    requires forall k :: 0 <= k < |parts| ==> !Contains(parts[k], [c])
    ensures Split(Join(parts, [c]), [c]) == parts
    decreases |parts|
  {
    var s := Join(parts, [c]);
    if |parts| == 1 {
      assert FindFrom(s, [c], 0).None?;
    } else {
      var head := parts[0];
      var rest := Join(parts[1..], [c]);
      assert s == head + [c] + rest;
      assert OccursAt(s, |head|, [c]);
      forall q | 0 <= q < |head|
        ensures !OccursAt(s, q, [c])
      {
        if OccursAt(s, q, [c]) {
          assert OccursAt(head, q, [c]);
          ContainsMeansOccurs(head, [c]);
          assert false;
        }
      }
      LeftmostFound(s, [c], |head|);
      assert s[..|head|] == head;
      assert s[|head| + 1..] == rest;
      assert Split(s, [c]) == [head] + Split(rest, [c]);
      SplitJoin(parts[1..], c);
      assert parts == [head] + parts[1..];
    }
  }

  // ---- Fixed-width decimal numerals -------------------------------------

  function Pow10(k: nat): (r: nat)
    ensures r >= 1
  {
    if k == 0 then 1 else 10 * Pow10(k - 1)
  }

  predicate IsDigit(c: char) {
    '0' <= c <= '9'
  }

  predicate AllDigits(s: string) {
    forall i :: 0 <= i < |s| ==> IsDigit(s[i])
  }

  function DigitChar(n: int): (c: char)
    requires 0 <= n < 10
    ensures IsDigit(c)
  {
    ('0' as int + n) as char
  }

  /** The decimal value of a run of digits, as `int()` or `strptime` read it. */
  function Value(s: string): (n: nat)
    requires AllDigits(s)
    ensures n < Pow10(|s|)
  {
    if s == [] then 0
    else Value(s[..|s| - 1]) * 10 + (s[|s| - 1] as int - '0' as int)
  }

  /** `n` written with exactly `k` digits, zero-padded on the left (`%02d`). */
  function Numeral(n: nat, k: nat): (s: string)
    requires n < Pow10(k)
    ensures |s| == k && AllDigits(s)
  {
    if k == 0 then "" else Numeral(n / 10, k - 1) + [DigitChar(n % 10)]
  }

  /** Reading a numeral back gives the number that was written. */
  lemma {:induction false} ValueOfNumeral(n: nat, k: nat)
    requires n < Pow10(k)
    ensures Value(Numeral(n, k)) == n
  {
    if k > 0 {
      ValueOfNumeral(n / 10, k - 1);
      var s := Numeral(n, k);
      assert s[..k - 1] == Numeral(n / 10, k - 1);
    }
  }
}
