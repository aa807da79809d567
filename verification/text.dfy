/** String functions the plugin relies on, with the semantics of the Python
    built-ins they stand for (`str.isdigit`, `int`, `str`, `find`, `split`,
    `strip`, `lower`, `join`, `in`). Digits and case are ASCII only. */
module Text {

  // ---------------------------------------------------------------------
  // Digits and decimal values
  // ---------------------------------------------------------------------

  predicate IsDigit(c: char) {
    '0' <= c <= '9'
  }

  /** Every character is an ASCII digit (the empty string qualifies). */
  predicate AllDigits(s: string) {
    forall i :: 0 <= i < |s| ==> IsDigit(s[i])
  }

  /** `s.isdigit()`: non-empty and made of digits only. */
  predicate IsDigits(s: string) {
    |s| > 0 && AllDigits(s)
  }

  function DigitValue(c: char): (v: nat)
    requires IsDigit(c)
    ensures v < 10
  {
    (c as int) - ('0' as int)
  }

  function DigitChar(d: nat): (c: char)
    requires d < 10
    ensures IsDigit(c) && DigitValue(c) == d
  {
    (('0' as int) + d) as char
  }

  /** `int(s)` for a digit string, read most significant digit first. */
  function DecimalValue(s: string): nat
    requires AllDigits(s)
  {
    if s == [] then 0 else 10 * DecimalValue(s[..|s| - 1]) + DigitValue(s[|s| - 1])
  }

  /** `str(n)` for a natural number: shortest decimal spelling. */
  function NatToString(n: nat): (r: string)
    ensures IsDigits(r)
  {
    if n < 10 then [DigitChar(n)] else NatToString(n / 10) + [DigitChar(n % 10)]
  }

  /** `str(n)` for an integer. */
  function IntToString(n: int): (r: string)
    ensures r != ""
    ensures n >= 0 ==> IsDigits(r)
    ensures n < 0 ==> r[0] == '-' && IsDigits(r[1..])
  {
    if n < 0 then "-" + NatToString(-n) else NatToString(n)
  }

  /** The digit string without its leading zeros ("" for an all-zero string). */
  function StripLeadingZeros(s: string): (r: string)
    ensures AllDigits(s) ==> AllDigits(r)
    ensures r == [] || r[0] != '0'
    ensures |r| <= |s| && r == s[|s| - |r|..]
  {
    if s != [] && s[0] == '0' then StripLeadingZeros(s[1..]) else s
  }

  lemma {:induction false} LeadingZeroAddsNothing(s: string)
    requires AllDigits(s)
    ensures AllDigits("0" + s) && DecimalValue("0" + s) == DecimalValue(s)
  {
    if s != [] {
      var p := s[..|s| - 1];
      assert ("0" + s)[..|s|] == "0" + p;
      LeadingZeroAddsNothing(p);
    }
  }

  lemma {:induction false} StripKeepsValue(s: string)
    requires AllDigits(s)
    ensures DecimalValue(StripLeadingZeros(s)) == DecimalValue(s)
  {
    if s != [] && s[0] == '0' {
      StripKeepsValue(s[1..]);
      assert s == "0" + s[1..];
      LeadingZeroAddsNothing(s[1..]);
    }
  }

  /** A digit string with no leading zero has a positive value. */
  lemma {:induction false} CanonicalIsPositive(s: string)
    requires IsDigits(s) && s[0] != '0'
    ensures DecimalValue(s) > 0
  {
    if |s| > 1 {
      CanonicalIsPositive(s[..|s| - 1]);
    }
  }

  /** A digit string with no leading zero is exactly `str` of its value. */
  lemma {:induction false} CanonicalRoundTrip(s: string)
    requires IsDigits(s) && s[0] != '0'
    ensures NatToString(DecimalValue(s)) == s
  {
    if |s| == 1 {
      assert DecimalValue(s) == DigitValue(s[0]);
      assert DigitChar(DigitValue(s[0])) == s[0];
    } else {
      var p := s[..|s| - 1];
      var d := DigitValue(s[|s| - 1]);
      CanonicalIsPositive(p);
      CanonicalRoundTrip(p);
      var v := DecimalValue(s);
      assert v == 10 * DecimalValue(p) + d;
      assert v / 10 == DecimalValue(p) && v % 10 == d;
      assert DigitChar(d) == s[|s| - 1];
      assert s == p + [s[|s| - 1]];
    }
  }

  /** `int(str(n)) == n`. */
  lemma {:induction false} NatToStringRoundTrip(n: nat)
    ensures DecimalValue(NatToString(n)) == n
  {
    if n >= 10 {
      NatToStringRoundTrip(n / 10);
      var r := NatToString(n);
      assert r[..|r| - 1] == NatToString(n / 10);
    }
  }

  /** Two digit strings have the same value exactly when they agree once
      their leading zeros are removed. */
  lemma SameValueIffSameCanonicalForm(a: string, b: string)
    requires AllDigits(a) && AllDigits(b)
    ensures DecimalValue(a) == DecimalValue(b) <==> StripLeadingZeros(a) == StripLeadingZeros(b)
  {
    var ca, cb := StripLeadingZeros(a), StripLeadingZeros(b);
    StripKeepsValue(a);
    StripKeepsValue(b);
    if DecimalValue(a) == DecimalValue(b) {
      if ca != [] && cb != [] {
        CanonicalRoundTrip(ca);
        CanonicalRoundTrip(cb);
      } else if ca != [] {
        CanonicalIsPositive(ca);
      } else if cb != [] {
        CanonicalIsPositive(cb);
      }
    }
  }

  // ---------------------------------------------------------------------
  // Digit extraction (`re.findall(r'\d+', s)` joined)
  // ---------------------------------------------------------------------

  /** The digit characters of `s`, in their original order. */
  function Digits(s: string): string {
    if s == [] then [] else (if IsDigit(s[0]) then [s[0]] else []) + Digits(s[1..])
  }

  lemma {:induction false} DigitsAppend(a: string, b: string)
    ensures Digits(a + b) == Digits(a) + Digits(b)
  {
    if a != [] {
      var head := if IsDigit(a[0]) then [a[0]] else [];
      assert (a + b)[0] == a[0];
      assert (a + b)[1..] == a[1..] + b;
      assert Digits(a + b) == head + Digits(a[1..] + b);
      DigitsAppend(a[1..], b);
    } else {
      assert a + b == b;
    }
  }

  /** Length of the run of digits at the start of `s`. */
  function LeadingDigitCount(s: string): (n: nat)
    ensures n <= |s|
    ensures AllDigits(s[..n])
    ensures n < |s| ==> !IsDigit(s[n])
  {
    if s == [] || !IsDigit(s[0]) then 0 else 1 + LeadingDigitCount(s[1..])
  }

  /** The maximal runs of digits in `s`, left to right, as `re.findall(r'\d+')` returns them. */
  function DigitRuns(s: string): (runs: seq<string>)
    ensures forall i :: 0 <= i < |runs| ==> IsDigits(runs[i])
    decreases |s|
  {
    if s == [] then []
    else if !IsDigit(s[0]) then DigitRuns(s[1..])
    else
      var n := LeadingDigitCount(s);
      [s[..n]] + DigitRuns(s[n..])
  }

  function Concat(parts: seq<string>): string {
    if parts == [] then "" else parts[0] + Concat(parts[1..])
  }

  lemma DigitsOfDigitString(s: string)
    requires AllDigits(s)
    ensures Digits(s) == s
  {
  }

  /** Joining the digit runs gives exactly the digit characters of the input. */
  lemma {:induction false} RunsJoinToDigits(s: string)
    ensures Concat(DigitRuns(s)) == Digits(s)
    decreases |s|
  {
    if s == [] {
    } else if !IsDigit(s[0]) {
      RunsJoinToDigits(s[1..]);
      assert Digits(s) == Digits(s[1..]);
    } else {
      var n := LeadingDigitCount(s);
      RunsJoinToDigits(s[n..]);
      assert s == s[..n] + s[n..];
      DigitsAppend(s[..n], s[n..]);
      DigitsOfDigitString(s[..n]);
      assert DigitRuns(s)[1..] == DigitRuns(s[n..]);
    }
  }

  lemma {:induction false} DigitsAreDigits(s: string)
    ensures AllDigits(Digits(s))
  {
    if s != [] {
      DigitsAreDigits(s[1..]);
    }
  }

  // ---------------------------------------------------------------------
  // Searching and slicing
  // ---------------------------------------------------------------------

  predicate StartsWith(s: string, prefix: string) {
    |prefix| <= |s| && s[..|prefix|] == prefix
  }

  predicate OccursAt(s: string, sub: string, i: int) {
    0 <= i <= |s| - |sub| && s[i..i + |sub|] == sub
  }

  /** `sub in s` for strings. */
  predicate Contains(s: string, sub: string) {
    exists i | 0 <= i <= |s| :: OccursAt(s, sub, i)
  }

  /** `s.find(c)`: the index of the first `c`, or -1. */
  function Find(s: string, c: char): (r: int)
    ensures -1 <= r < |s|
    ensures r == -1 <==> c !in s
    ensures r >= 0 ==> s[r] == c && c !in s[..r]
  {
    if s == [] then -1
    else if s[0] == c then 0
    else
      var k := Find(s[1..], c);
      assert s[1..][..k + 1] == s[1..k + 2] by { }
      if k < 0 then -1 else k + 1
  }

  /** `s.split(c)[0]`: the text before the first `c`, or all of `s`. */
  function BeforeFirst(s: string, c: char): (r: string)
    ensures c !in r && StartsWith(s, r)
    ensures |r| < |s| ==> s[|r|] == c
  {
    var i := Find(s, c);
    if i < 0 then s else s[..i]
  }

  /** `s.split(c, 1)[1]`: the text after the first `c`. */
  function AfterFirst(s: string, c: char): (r: string)
    requires c in s
    ensures s == BeforeFirst(s, c) + [c] + r
  {
    var i := Find(s, c);
    assert s == s[..i] + [c] + s[i + 1..];
    s[i + 1..]
  }

  /** `s.split(c)[-1]`: the text after the last `c`, or all of `s`. */
  function AfterLast(s: string, c: char): (r: string)
    ensures c !in r && |r| <= |s| && r == s[|s| - |r|..]
    ensures |r| < |s| ==> s[|s| - |r| - 1] == c
  {
    if s == [] then []
    else if s[|s| - 1] == c then []
    else AfterLast(s[..|s| - 1], c) + [s[|s| - 1]]
  }

  lemma {:induction false} AfterLastOfJoin(a: string, c: char, b: string)
    requires c !in b
    ensures AfterLast(a + [c] + b, c) == b
  {
    if b != [] {
      var s := a + [c] + b;
      assert s[..|s| - 1] == a + [c] + b[..|b| - 1];
      AfterLastOfJoin(a, c, b[..|b| - 1]);
    }
  }

  // ---------------------------------------------------------------------
  // Splitting and joining on one character
  // ---------------------------------------------------------------------

  /** `sep.join(parts)`. */
  function Join(sep: string, parts: seq<string>): string {
    if parts == [] then ""
    else if |parts| == 1 then parts[0]
    else parts[0] + sep + Join(sep, parts[1..])
  }

  /** `s.split(c)`: never empty, no part contains `c`, and joining the parts
      with `c` gives `s` back. */
  function Split(s: string, c: char): (parts: seq<string>)
    ensures |parts| >= 1
    ensures forall i :: 0 <= i < |parts| ==> c !in parts[i]
    ensures Join([c], parts) == s
    decreases |s|
  {
    var i := Find(s, c);
    if i < 0 then [s]
    else
      var rest := Split(s[i + 1..], c);
      assert s == s[..i] + [c] + s[i + 1..];
      [s[..i]] + rest
  }

  /** Splitting a join of `c`-free parts gives the parts back. */
  lemma {:induction false} SplitJoinRoundTrip(parts: seq<string>, c: char)
    requires |parts| >= 1
    requires forall i :: 0 <= i < |parts| ==> c !in parts[i]
    ensures Split(Join([c], parts), c) == parts
  {
    if |parts| > 1 {
      var s := Join([c], parts);
      var tail := Join([c], parts[1..]);
      assert s == parts[0] + [c] + tail;
      var i := |parts[0]|;
      assert s[..i] == parts[0];
      assert s[i] == c;
      assert Find(s, c) == i;
      assert s[i + 1..] == tail;
      SplitJoinRoundTrip(parts[1..], c);
    } else {
      assert Find(parts[0], c) == -1;
    }
  }

  // ---------------------------------------------------------------------
  // Whitespace and case
  // ---------------------------------------------------------------------

  /** The characters Python's `str.isspace` accepts. */
  predicate IsSpace(c: char) {
    || c == ' ' || c == '\t' || c == '\n' || c == '\r'
    || c == '\U{000B}' || c == '\U{000C}'
    || ('\U{001C}' <= c <= '\U{001F}')
    || c == '\U{0085}' || c == '\U{00A0}' || c == '\U{1680}'
    || ('\U{2000}' <= c <= '\U{200A}')
    || c == '\U{2028}' || c == '\U{2029}' || c == '\U{202F}' || c == '\U{205F}'
    || c == '\U{3000}'
  }

  predicate AllSpace(s: string) {
    forall k :: 0 <= k < |s| ==> IsSpace(s[k])
  }

  function LeadingSpaceCount(s: string): (n: nat)
    ensures n <= |s| && forall k :: 0 <= k < n ==> IsSpace(s[k])
    ensures n < |s| ==> !IsSpace(s[n])
  {
    if s == [] || !IsSpace(s[0]) then 0 else 1 + LeadingSpaceCount(s[1..])
  }

  function TrailingSpaceCount(s: string): (n: nat)
    ensures n <= |s| && forall k :: |s| - n <= k < |s| ==> IsSpace(s[k])
    ensures n < |s| ==> !IsSpace(s[|s| - n - 1])
  {
    if s == [] || !IsSpace(s[|s| - 1]) then 0 else TrailingSpaceCount(s[..|s| - 1]) + 1
  }

  /** `s.strip()`: `s` without its leading and trailing whitespace. */
  function Strip(s: string): (r: string)
    ensures r == [] <==> AllSpace(s)
    ensures r != [] ==> !IsSpace(r[0]) && !IsSpace(r[|r| - 1])
  {
    var t := s[LeadingSpaceCount(s)..];
    t[..|t| - TrailingSpaceCount(t)]
  }

  /** Stripping removes exactly the whitespace around a text whose first and
      last characters are not whitespace. */
  lemma StripSurrounded(before: string, r: string, after: string)
    requires AllSpace(before) && AllSpace(after)
    requires r != [] && !IsSpace(r[0]) && !IsSpace(r[|r| - 1])
    ensures Strip(before + r + after) == r
  {
    var s := before + r + after;
    LeadingSpaceUpTo(s, |before|);
    var t := s[|before|..];
    assert t == r + after;
    TrailingSpaceUpTo(t, |after|);
    assert t[..|t| - |after|] == r;
  }

  lemma {:induction false} LeadingSpaceUpTo(s: string, n: nat)
    requires n < |s| && !IsSpace(s[n])
    requires forall k :: 0 <= k < n ==> IsSpace(s[k])
    ensures LeadingSpaceCount(s) == n
  {
    if n > 0 {
      LeadingSpaceUpTo(s[1..], n - 1);
    }
  }

  lemma {:induction false} TrailingSpaceUpTo(s: string, n: nat)
    requires n < |s| && !IsSpace(s[|s| - n - 1])
    requires forall k :: |s| - n <= k < |s| ==> IsSpace(s[k])
    ensures TrailingSpaceCount(s) == n
  {
    if n > 0 {
      TrailingSpaceUpTo(s[..|s| - 1], n - 1);
    }
  }

  function LowerChar(c: char): char {
    if 'A' <= c <= 'Z' then ((c as int) + 32) as char else c
  }

  /** `s.lower()` over ASCII letters. */
  function Lower(s: string): (r: string)
    ensures |r| == |s|
    ensures forall i :: 0 <= i < |s| ==> r[i] == LowerChar(s[i])
  {
    if s == [] then [] else [LowerChar(s[0])] + Lower(s[1..])
  }

  /** Text without upper-case ASCII letters is its own lower-case form. */
  lemma LowerIdentity(s: string)
    requires forall i :: 0 <= i < |s| ==> !('A' <= s[i] <= 'Z')
    ensures Lower(s) == s
  {
    assert forall i :: 0 <= i < |s| ==> Lower(s)[i] == s[i];
  }

  /** Regrouping a concatenation. */
  lemma ConcatAssoc<T>(a: seq<T>, b: seq<T>, c: seq<T>)
    ensures a + b + c == a + (b + c)
  {
    assert forall i :: 0 <= i < |a + b + c| ==> (a + b + c)[i] == (a + (b + c))[i];
  }
}
