/**
 * Lime sources: an identified text buffer. Equality and hashing look at the
 * identifier only, and the content is split into lines the way Kotlin's
 * `CharSequence.lines()` does (at "\r\n", "\n" and "\r").
 */
module Sources {
  import opened Wrappers

  type SourceId = string

  datatype Source = Source(identifier: SourceId, content: string)

  /** `Source.equals`: two sources are the same source when their identifiers agree. */
  predicate SameSource(a: Source, b: Source) {
    a.identifier == b.identifier
  }

  // ----- Hashing (Java's String.hashCode, 32-bit wrap-around) -----

  const TwoTo32: int := 0x1_0000_0000
  const TwoTo31: int := 0x8000_0000

  /** A Kotlin `Int`: a signed 32-bit integer. */
  type Int32 = x: int | -TwoTo31 <= x < TwoTo31

  /** Truncation of an integer to a signed 32-bit `Int`. */
  function ToInt32(x: int): (r: int)
    ensures -TwoTo31 <= r < TwoTo31
    ensures (r - x) % TwoTo32 == 0
  {
    (x + TwoTo31) % TwoTo32 - TwoTo31
  }

  /**
   * The UTF-16 code units of one character, as a JVM string stores it: a
   * character above U+FFFF becomes a high and a low surrogate.
   */
  function CodeUnits(c: char): (u: seq<int>)
    ensures 1 <= |u| <= 2
    ensures forall k :: 0 <= k < |u| ==> 0 <= u[k] < 0x1_0000
    ensures |u| == 1 <==> (c as int) < 0x1_0000
  {
    var v := c as int;
    if v < 0x1_0000 then [v]
    else [0xD800 + (v - 0x1_0000) / 0x400, 0xDC00 + (v - 0x1_0000) % 0x400]
  }

  /** The UTF-16 code units of a string, character by character. */
  function Utf16(s: string): (u: seq<int>)
    ensures |u| >= |s|
    ensures forall k :: 0 <= k < |u| ==> 0 <= u[k] < 0x1_0000
  {
    if s == [] then [] else Utf16(s[..|s| - 1]) + CodeUnits(s[|s| - 1])
  }

  /** A string of characters up to U+FFFF has one code unit per character, its own value. */
  lemma {:induction false} Utf16OfBasicPlane(s: string)
    requires forall k :: 0 <= k < |s| ==> (s[k] as int) < 0x1_0000
    ensures |Utf16(s)| == |s|
    ensures forall k :: 0 <= k < |s| ==> Utf16(s)[k] == s[k] as int
  {
    if s != [] {
      Utf16OfBasicPlane(s[..|s| - 1]);
    }
  }

  /** h := 31 * h + u over code units, wrapping at 32 bits. */
  function UnitsHash(u: seq<int>): (h: int)
    ensures -TwoTo31 <= h < TwoTo31
  {
    if u == [] then 0 else ToInt32(31 * UnitsHash(u[..|u| - 1]) + u[|u| - 1])
  }

  /** `String.hashCode`: the wrapping hash over the UTF-16 code units of the string. */
  function StringHash(s: string): (h: int)
    ensures -TwoTo31 <= h < TwoTo31
  {
    UnitsHash(Utf16(s))
  }

  /** The polynomial the hash computes, without wrap-around. */
  function Polynomial(u: seq<int>): int {
    if u == [] then 0 else 31 * Polynomial(u[..|u| - 1]) + u[|u| - 1]
  }

  lemma ToInt32Congruent(x: int, y: int)
    requires (x - y) % TwoTo32 == 0
    ensures ToInt32(x) == ToInt32(y)
  {
    var k := (x - y) / TwoTo32;
    assert x == y + k * TwoTo32;
    assert (x + TwoTo31) % TwoTo32 == (y + TwoTo31 + k * TwoTo32) % TwoTo32;
    ModAddMultiple(y + TwoTo31, k);
  }

  lemma ModAddMultiple(a: int, k: int)
    ensures (a + k * TwoTo32) % TwoTo32 == a % TwoTo32
  {
  }

  /** Wrapping after every step gives the 32-bit truncation of the exact polynomial. */
  lemma {:induction false} UnitsHashIsTruncatedPolynomial(u: seq<int>)
    ensures UnitsHash(u) == ToInt32(Polynomial(u))
  {
    if u != [] {
      var p := u[..|u| - 1];
      var c := u[|u| - 1];
      UnitsHashIsTruncatedPolynomial(p);
      HashStepCongruent(UnitsHash(p), Polynomial(p), c);
    }
  }

  /** One hashing step keeps two values that agree modulo 2^32 in agreement after truncation. */
  lemma HashStepCongruent(h: int, q: int, c: int)
    requires h == ToInt32(q)
    ensures ToInt32(31 * h + c) == ToInt32(31 * q + c)
  {
    assert (h - q) % TwoTo32 == 0;
    var d := (h - q) / TwoTo32;
    assert h == q + d * TwoTo32;
    assert (31 * h + c) - (31 * q + c) == (31 * d) * TwoTo32;
    ToInt32Congruent(31 * h + c, 31 * q + c);
  }

  /** The identifier's hash is the truncated polynomial of its UTF-16 code units. */
  lemma StringHashIsTruncatedPolynomial(s: string)
    ensures StringHash(s) == ToInt32(Polynomial(Utf16(s)))
  {
    UnitsHashIsTruncatedPolynomial(Utf16(s));
  }

  /** A character outside the basic plane hashes through its surrogate pair: "\U{1F600}" gives 1772899. */
  lemma SupplementaryHash()
    ensures Utf16("\U{1F600}") == [0xD83D, 0xDE00]
    ensures StringHash("\U{1F600}") == 1772899
  {
    assert "\U{1F600}"[..0] == [];
    var u: seq<int> := [0xD83D, 0xDE00];
    assert u[..1] == [0xD83D] && [0xD83D][..0] == [];
    assert UnitsHash([0xD83D]) == 0xD83D;
    assert UnitsHash(u) == ToInt32(31 * 0xD83D + 0xDE00);
  }

  /** `Source.hashCode`: the identifier's hash. */
  function Hash(s: Source): (h: int)
    ensures -TwoTo31 <= h < TwoTo31
  {
    StringHash(s.identifier)
  }

  /** Equal sources hash alike, whatever their content: `equals` and `hashCode` agree. */
  lemma HashRespectsEquality(a: Source, b: Source)
    requires SameSource(a, b)
    ensures Hash(a) == Hash(b)
  {
  }

  // ----- Lines -----

  predicate IsLineBreak(c: char) { c == '\n' || c == '\r' }

  predicate NoBreaks(s: string) { forall i :: 0 <= i < |s| ==> !IsLineBreak(s[i]) }

  /** Index of the first line terminator character of `s`, or `|s|` when there is none. */
  function BreakIndex(s: string): (k: nat)
    ensures k <= |s|
    ensures NoBreaks(s[..k])
    ensures k < |s| ==> IsLineBreak(s[k])
  {
    if s == [] || IsLineBreak(s[0]) then 0
    else
      var k := 1 + BreakIndex(s[1..]);
      assert s[..k] == [s[0]] + s[1..][..k - 1];
      k
  }

  /** Length of the terminator at index `k`: "\r\n" counts as one terminator of two characters. */
  function BreakWidth(s: string, k: nat): (w: nat)
    requires k < |s| && IsLineBreak(s[k])
    ensures 1 <= w <= 2 && k + w <= |s|
  {
    if s[k] == '\r' && k + 1 < |s| && s[k + 1] == '\n' then 2 else 1
  }

  /** `CharSequence.lines()`: the text between terminators; a trailing terminator gives a last empty line. */
  function Lines(s: string): (r: seq<string>)
    ensures |r| >= 1
    ensures forall i :: 0 <= i < |r| ==> NoBreaks(r[i])
    decreases |s|
  {
    var k := BreakIndex(s);
    if k == |s| then [s] else [s[..k]] + Lines(s[k + BreakWidth(s, k)..])
  }

  /** Lines joined back with "\n" between them. */
  function JoinLines(ls: seq<string>): string
    requires |ls| >= 1
  {
    if |ls| == 1 then ls[0] else ls[0] + "\n" + JoinLines(ls[1..])
  }

  /** Splitting and joining again gives back a text that uses "\n" terminators only. */
  lemma {:induction false} JoinLinesOfLines(s: string)
    requires forall i :: 0 <= i < |s| ==> s[i] != '\r'
    ensures JoinLines(Lines(s)) == s
    decreases |s|
  {
    var k := BreakIndex(s);
    if k < |s| {
      var rest := s[k + 1..];
      assert BreakWidth(s, k) == 1;
      var ls := Lines(s);
      assert ls == [s[..k]] + Lines(rest);
      assert ls[1..] == Lines(rest);
      JoinLinesOfLines(rest);
      assert JoinLines(ls) == s[..k] + "\n" + rest;
      assert s == s[..k] + "\n" + rest;
    }
  }

  /** Joining lines that hold no terminator and splitting again gives back those lines. */
  lemma {:induction false} LinesOfJoinLines(ls: seq<string>)
    requires |ls| >= 1
    requires forall i :: 0 <= i < |ls| ==> NoBreaks(ls[i])
    ensures Lines(JoinLines(ls)) == ls
  {
    var s := JoinLines(ls);
    if |ls| == 1 {
      assert BreakIndex(s) == |s|;
    } else {
      var tail := JoinLines(ls[1..]);
      assert s == ls[0] + ("\n" + tail);
      BreakIndexAfter(ls[0], "\n" + tail);
      assert BreakIndex(s) == |ls[0]|;
      assert s[|ls[0]| + 1..] == tail;
      assert s[..|ls[0]|] == ls[0];
      LinesOfJoinLines(ls[1..]);
    }
  }

  lemma {:induction false} BreakIndexAfter(a: string, b: string)
    requires NoBreaks(a) && |b| > 0 && IsLineBreak(b[0])
    ensures BreakIndex(a + b) == |a|
    decreases |a|
  {
    if a != [] {
      assert (a + b)[1..] == a[1..] + b;
      BreakIndexAfter(a[1..], b);
    }
  }

  /** A trailing terminator yields a final empty line. */
  lemma {:induction false} TrailingBreakGivesEmptyLine(s: string)
    requires |s| > 0 && IsLineBreak(s[|s| - 1])
    ensures Lines(s)[|Lines(s)| - 1] == ""
    decreases |s|
  {
    var k := BreakIndex(s);
    var rest := s[k + BreakWidth(s, k)..];
    if rest != [] {
      assert rest[|rest| - 1] == s[|s| - 1];
      TrailingBreakGivesEmptyLine(rest);
    }
  }

  /** `Source.getLines()`. */
  function GetLines(s: Source): (r: seq<string>)
    ensures r == Lines(s.content)
  {
    Lines(s.content)
  }

  /** The exceptions `List.subList` raises. */
  datatype SubListError = IndexOutOfBounds | IllegalArgument

  /** `List.subList(from, to)` as the JDK checks it: from < 0, then to > size, then from > to. */
  function SubList<T>(xs: seq<T>, from: int, to: int): (r: Result<seq<T>, SubListError>)
    ensures r.Success? <==> 0 <= from <= to <= |xs|
    ensures r.Success? ==> r.value == xs[from..to]
    ensures r.Failure? && (from < 0 || to > |xs|) ==> r.error == IndexOutOfBounds
    ensures r.Failure? && 0 <= from && to <= |xs| ==> r.error == IllegalArgument
  {
    if from < 0 || to > |xs| then Failure(IndexOutOfBounds)
    else if from > to then Failure(IllegalArgument)
    else Success(xs[from..to])
  }

  /**
   * `Source.getLines(start, n)`: the `n` lines beginning at the 1-indexed line `start`. Both
   * bounds, `start - 1` and `start - 1 + n`, are computed in a 32-bit `Int` and wrap around.
   */
  function GetLinesFrom(s: Source, start: Int32, n: Int32): (r: Result<seq<string>, SubListError>)
    ensures r.Success? <==>
              || (1 <= start && 0 <= n && start - 1 + n <= |Lines(s.content)| && start - 1 + n < TwoTo31)
              || (start == -TwoTo31 && n == 0 && |Lines(s.content)| >= TwoTo31 - 1)
    ensures r.Success? ==> |r.value| == n
    ensures r.Success? ==> forall i :: 0 <= i < n ==> r.value[i] == Lines(s.content)[start - 1 + i]
    ensures r.Failure? && start > -TwoTo31 && start - 1 + n < TwoTo31 ==>
              (r.error == IndexOutOfBounds <==> start < 1 || start - 1 + n > |Lines(s.content)|)
  {
    WrappedSubList(GetLines(s), start, n);
    SubList(GetLines(s), ToInt32(start - 1), ToInt32(start - 1 + n))
  }

  /** The sub-list between the wrapped bounds `start - 1` and `start - 1 + n`, case by case. */
  lemma WrappedSubList(ls: seq<string>, start: Int32, n: Int32)
    ensures var r := SubList(ls, ToInt32(start - 1), ToInt32(start - 1 + n));
            && (r.Success? <==>
                  || (1 <= start && 0 <= n && start - 1 + n <= |ls| && start - 1 + n < TwoTo31)
                  || (start == -TwoTo31 && n == 0 && |ls| >= TwoTo31 - 1))
            && (r.Success? ==> |r.value| == n)
            && (r.Success? ==> forall i :: 0 <= i < n ==> r.value[i] == ls[start - 1 + i])
            && (r.Failure? && start > -TwoTo31 && start - 1 + n < TwoTo31 ==>
                  (r.error == IndexOutOfBounds <==> start < 1 || start - 1 + n > |ls|))
  {
    ToInt32Window(start - 1);
    ToInt32Window(start - 1 + n);
    if start == -TwoTo31 {
      assert ToInt32(start - 1) == TwoTo31 - 1;
    } else {
      assert ToInt32(start - 1) == start - 1;
      if -TwoTo31 <= start - 1 + n < TwoTo31 {
        assert ToInt32(start - 1 + n) == start - 1 + n;
      }
    }
  }

  /** Within one period of the `Int` range, truncation is the identity or a single shift by 2^32. */
  lemma ToInt32Window(x: int)
    requires -TwoTo31 - TwoTo32 <= x < TwoTo31 + TwoTo32
    ensures -TwoTo31 <= x < TwoTo31 ==> ToInt32(x) == x
    ensures TwoTo31 <= x ==> ToInt32(x) == x - TwoTo32
    ensures x < -TwoTo31 ==> ToInt32(x) == x + TwoTo32
  {
    if TwoTo31 <= x {
      ToInt32Congruent(x, x - TwoTo32);
    } else if x < -TwoTo31 {
      ToInt32Congruent(x, x + TwoTo32);
    }
  }

  /** A last line past the largest `Int` wraps to a negative bound: the range is illegal, not out of bounds. */
  lemma GetLinesPastIntMax(s: Source, start: Int32, n: Int32)
    requires 1 <= start && start - 1 + n >= TwoTo31
    ensures GetLinesFrom(s, start, n) == Failure(IllegalArgument)
  {
    ToInt32Window(start - 1 + n);
  }

  /** From the smallest `Int`, the first bound wraps to the largest one, above every last bound. */
  lemma GetLinesFromIntMin(s: Source, n: Int32)
    requires n >= 1
    ensures GetLinesFrom(s, -TwoTo31, n) == Failure(IllegalArgument)
  {
    ToInt32Window(-TwoTo31 - 1);
  }
}
