/** Decimal rendering and parsing, separators and string search: the string
    building blocks the pipeline's SQL and Python formatting rely on. */
module Text {

  predicate IsDigit(c: char) {
    '0' <= c <= '9'
  }

  predicate AllDigits(s: string) {
    forall i :: 0 <= i < |s| ==> IsDigit(s[i])
  }

  function DigitChar(d: nat): (c: char)
    requires d < 10
    ensures IsDigit(c)
  {
    ('0' as int + d) as char
  }

  /** Python's `str(n)` for a non-negative integer: no leading zeros. */
  function NatToString(n: nat): (s: string)
    ensures |s| >= 1 && AllDigits(s)
    ensures n < 10 <==> |s| == 1
    ensures s[0] == '0' <==> n == 0
    decreases n
  {
    if n < 10 then [DigitChar(n)] else NatToString(n / 10) + [DigitChar(n % 10)]
  }

  /** The number a string of decimal digits denotes (the empty string denotes 0). */
  function DigitsValue(s: string): nat
    requires AllDigits(s)
  {
    if s == [] then 0 else DigitsValue(s[..|s| - 1]) * 10 + (s[|s| - 1] as int - '0' as int)
  }

  lemma {:induction false} NatToStringRoundTrip(n: nat)
    ensures DigitsValue(NatToString(n)) == n
    decreases n
  {
    if n >= 10 {
      NatToStringRoundTrip(n / 10);
      var s := NatToString(n);
      assert s[..|s| - 1] == NatToString(n / 10);
    }
  }

  lemma NatToStringInjective(a: nat, b: nat)
    requires NatToString(a) == NatToString(b)
    ensures a == b
  {
    NatToStringRoundTrip(a);
    NatToStringRoundTrip(b);
  }

  /** Python's `str(i)` (and `f"{i}"`) for any integer. */
  function IntToString(i: int): (s: string)
    ensures |s| >= 1
  {
    if i < 0 then "-" + NatToString(-i) else NatToString(i)
  }

  /** Python's `f"{i:02}"`: zero-padded to width two; the sign counts towards the
      width, so a negative number is never padded. */
  function Pad2(i: int): (s: string)
    ensures 0 <= i < 100 ==> |s| == 2 && AllDigits(s) && DigitsValue(s) == i
    ensures i < 0 || 10 <= i ==> s == IntToString(i)
  {
    if 0 <= i < 10 then
      var s := ['0', DigitChar(i)];
      assert s[..1] == ['0'] && DigitsValue(['0']) == 0;
      assert DigitsValue(s) == DigitsValue(['0']) * 10 + i;
      s
    else
      if 10 <= i < 100 then NatToStringRoundTrip(i); IntToString(i) else IntToString(i)
  }

  /** Every occurrence of `from` replaced by `to` (SQL `REPLACE` on one character). */
  function ReplaceChar(s: string, from: char, to: char): (r: string)
    ensures |r| == |s|
    ensures forall i :: 0 <= i < |s| ==> r[i] == (if s[i] == from then to else s[i])
  {
    if s == [] then [] else [if s[0] == from then to else s[0]] + ReplaceChar(s[1..], from, to)
  }

  lemma ReplaceConcat(x: string, y: string, from: char, to: char)
    ensures ReplaceChar(x + y, from, to) == ReplaceChar(x, from, to) + ReplaceChar(y, from, to)
  {
    var l, r := ReplaceChar(x + y, from, to), ReplaceChar(x, from, to) + ReplaceChar(y, from, to);
    forall i | 0 <= i < |l| ensures l[i] == r[i] {
      if i < |x| {
        assert (x + y)[i] == x[i];
      } else {
        assert (x + y)[i] == y[i - |x|];
      }
    }
  }

  lemma ReplaceAbsent(x: string, from: char, to: char)
    requires from !in x
    ensures ReplaceChar(x, from, to) == x
  {
  }

  /** The parts of `s` between occurrences of `sep`, in order (there is always one more
      part than there are separators). */
  function Split(s: string, sep: char): (parts: seq<string>)
    ensures |parts| >= 1
    ensures forall k :: 0 <= k < |parts| ==> sep !in parts[k]
  {
    if s == [] then [""]
    else
      var rest := Split(s[1..], sep);
      if s[0] == sep then [""] + rest else [[s[0]] + rest[0]] + rest[1..]
  }

  lemma {:induction false} SplitNoSeparator(a: string, sep: char)
    requires sep !in a
    ensures Split(a, sep) == [a]
  {
    if a != [] {
      SplitNoSeparator(a[1..], sep);
      assert [a[0]] + a[1..] == a;
    }
  }

  lemma {:induction false} SplitAtFirst(a: string, sep: char, b: string)
    requires sep !in a
    ensures Split(a + [sep] + b, sep) == [a] + Split(b, sep)
  {
    if a == [] {
      assert a + [sep] + b == [sep] + b;
      assert ([sep] + b)[1..] == b;
    } else {
      assert (a + [sep] + b)[1..] == a[1..] + [sep] + b;
      SplitAtFirst(a[1..], sep, b);
      assert [a[0]] + a[1..] == a;
    }
  }

  /** The parts joined with `sep` between consecutive parts (SQL `ARRAY_TO_STRING`). */
  function Join(parts: seq<string>, sep: string): string {
    if parts == [] then ""
    else if |parts| == 1 then parts[0]
    else parts[0] + sep + Join(parts[1..], sep)
  }

  /** `p` occurs in `s` starting at index `i`. */
  predicate OccursAt(s: string, i: int, p: string) {
    0 <= i && i + |p| <= |s| && s[i..i + |p|] == p
  }
}
