/**
 * The few ECMAScript string operations the camera screen relies on:
 * `String.prototype.includes`, `String.prototype.split` with a one-character
 * separator followed by `Array.prototype.pop`, and the decimal text that a
 * template literal produces for an integral number.
 */
module Text {

  // ---------------------------------------------------------------------------
  // includes
  // ---------------------------------------------------------------------------

  /** `t` occurs in `s` starting at index `i`. */
  ghost predicate OccursAt(s: string, t: string, i: int)
  {
    0 <= i && i + |t| <= |s| && s[i..i + |t|] == t
  }

  lemma OccursAtShift(s: string, t: string, i: int)
    requires |s| > 0 && i >= 0
    ensures OccursAt(s[1..], t, i) <==> OccursAt(s, t, i + 1)
  {
  }

  /** `s.includes(t)`: true exactly when `t` occurs somewhere in `s`. */
  function Includes(s: string, t: string): (r: bool)
    ensures r <==> exists i :: OccursAt(s, t, i)
    decreases |s|
  {
    if |s| < |t| then
      assert forall i :: !OccursAt(s, t, i);
      false
    else if s[..|t|] == t then
      assert OccursAt(s, t, 0);
      true
    else
      var rest := Includes(s[1..], t);
      assert rest <==> exists i :: OccursAt(s, t, i) by {
        if rest {
          var i :| OccursAt(s[1..], t, i);
          OccursAtShift(s, t, i);
        } else {
          forall i | OccursAt(s, t, i) ensures false {
            assert i != 0;
            OccursAtShift(s, t, i - 1);
          }
        }
      }
      rest
  }

  // ---------------------------------------------------------------------------
  // split and pop
  // ---------------------------------------------------------------------------

  /** `parts.join(sep)`. */
  function Join(parts: seq<string>, sep: char): string
  {
    if |parts| == 0 then ""
    else if |parts| == 1 then parts[0]
    else parts[0] + [sep] + Join(parts[1..], sep)
  }

  /**
   * `s.split(sep)` for a one-character separator: the maximal pieces of `s`
   * that contain no separator, in order. The result is never empty (the
   * empty string splits into one empty piece), and joining it back with the
   * separator gives `s` again.
   */
  function Split(s: string, sep: char): (parts: seq<string>)
    ensures |parts| >= 1
    ensures forall k :: 0 <= k < |parts| ==> sep !in parts[k]
    ensures Join(parts, sep) == s
    decreases |s|
  {
    if s == [] then [""]
    else
      var rest := Split(s[1..], sep);
      if s[0] == sep then
        assert s == [sep] + s[1..];
        [""] + rest
      else
        var parts := [[s[0]] + rest[0]] + rest[1..];
        assert parts[1..] == rest[1..];
        assert Join(parts, sep) == s by {
          if |rest| > 1 {
            assert Join(rest, sep) == rest[0] + [sep] + Join(rest[1..], sep);
            assert s == [s[0]] + s[1..];
          } else {
            assert s == [s[0]] + s[1..];
          }
        }
        parts
  }

  lemma {:induction false} JoinLast(parts: seq<string>, sep: char)
    requires |parts| >= 2
    ensures Join(parts, sep) == Join(parts[..|parts| - 1], sep) + [sep] + parts[|parts| - 1]
    decreases |parts|
  {
    if |parts| > 2 {
      JoinLast(parts[1..], sep);
      assert parts[1..][..|parts| - 2] == parts[..|parts| - 1][1..];
    }
  }

  /**
   * `seg` is the last `sep`-separated piece of `s`: a suffix of `s` that
   * contains no separator and is either all of `s` or preceded by one.
   */
  ghost predicate IsLastSegment(s: string, seg: string, sep: char)
  {
    sep !in seg && |seg| <= |s| && s[|s| - |seg|..] == seg &&
    (|seg| < |s| ==> s[|s| - |seg| - 1] == sep)
  }

  /** `s.split(sep).pop()`: the piece after the last separator. */
  function LastSegment(s: string, sep: char): (seg: string)
    ensures IsLastSegment(s, seg, sep)
  {
    var parts := Split(s, sep);
    var seg := parts[|parts| - 1];
    if |parts| == 1 then
      seg
    else
      JoinLast(parts, sep);
      var prefix := Join(parts[..|parts| - 1], sep);
      assert s == prefix + [sep] + seg;
      assert s[|s| - |seg|..] == seg;
      seg
  }

  // ---------------------------------------------------------------------------
  // decimal text of an integral number
  // ---------------------------------------------------------------------------

  predicate IsDigit(c: char)
  {
    '0' <= c <= '9'
  }

  predicate AllDigits(s: string)
  {
    forall i :: 0 <= i < |s| ==> IsDigit(s[i])
  }

  function DigitChar(d: nat): (c: char)
    requires d < 10
    ensures IsDigit(c)
  {
    ('0' as int + d) as char
  }

  function DigitValue(c: char): (d: nat)
    requires IsDigit(c)
    ensures d < 10 && DigitChar(d) == c
  {
    c as int - '0' as int
  }

  /** Decimal digits of `n`, most significant first, with no leading zero. */
  function NatToDecimal(n: nat): (r: string)
    ensures |r| >= 1 && AllDigits(r)
    ensures r[0] == '0' ==> n == 0 && |r| == 1
    decreases n
  {
    if n < 10 then [DigitChar(n)] else NatToDecimal(n / 10) + [DigitChar(n % 10)]
  }

  /** The value of a string of decimal digits. */
  function ParseDigits(s: string): nat
    requires AllDigits(s)
    decreases |s|
  {
    if s == [] then 0 else ParseDigits(s[..|s| - 1]) * 10 + DigitValue(s[|s| - 1])
  }

  lemma {:induction false} NatToDecimalRoundTrip(n: nat)
    ensures ParseDigits(NatToDecimal(n)) == n
    decreases n
  {
    if n >= 10 {
      var r := NatToDecimal(n);
      assert r[..|r| - 1] == NatToDecimal(n / 10);
      NatToDecimalRoundTrip(n / 10);
    }
  }

  /**
   * Decimal text of an integer, with a minus sign for negatives. For
   * magnitudes below 10^21 (which includes every time value) this is the text
   * a template literal gives the number; from 10^21 on, ECMAScript writes an
   * exponent form instead, which is not modelled.
   */
  function IntToDecimal(t: int): string
  {
    if t < 0 then "-" + NatToDecimal(-t) else NatToDecimal(t)
  }

  /** An optionally signed, non-empty run of decimal digits. */
  predicate IsDecimalText(s: string)
  {
    (|s| > 1 && s[0] == '-' && AllDigits(s[1..])) || (|s| > 0 && AllDigits(s))
  }

  /**
   * Decimal text as `IntToDecimal` writes it: no leading zero, and a minus
   * sign only before a non-zero magnitude ("0" is the one text starting
   * with the digit zero).
   */
  predicate IsCanonicalDecimal(s: string)
  {
    IsDecimalText(s) &&
    var digits := if s[0] == '-' then s[1..] else s;
    digits[0] == '0' ==> s == "0"
  }

  /** Reads back an optionally signed string of decimal digits, as `IntToDecimal` writes it. */
  function ParseInt(s: string): int
    requires IsDecimalText(s)
  {
    if s[0] == '-' then -(ParseDigits(s[1..]) as int) else ParseDigits(s)
  }

  lemma IntToDecimalRoundTrip(t: int)
    ensures IsCanonicalDecimal(IntToDecimal(t)) && ParseInt(IntToDecimal(t)) == t
  {
    NatToDecimalRoundTrip(if t < 0 then -t else t);
    if t < 0 {
      assert IntToDecimal(t)[1..] == NatToDecimal(-t);
    }
  }
}
