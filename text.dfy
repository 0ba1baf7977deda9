/**
 The string operations of the .NET base library that the scanner relies on:
 `ToLower`, `EndsWith`, `Path.GetFileName`, `int.ToString` and `PadLeft`.
 */
module Text {

  /** Lower-casing of one character (ASCII letters only). */
  function Lower(c: char): char
  {
    if 'A' <= c <= 'Z' then (c as int - 'A' as int + 'a' as int) as char else c
  }

  /** `s.ToLower()`. */
  function ToLower(s: string): string
  {
    seq(|s|, i requires 0 <= i < |s| => Lower(s[i]))
  }

  /** Ordinal `s.EndsWith(suffix)`. */
  predicate EndsWith(s: string, suffix: string)
  {
    |suffix| <= |s| && s[|s| - |suffix|..] == suffix
  }

  /** The directory separators of Windows paths. */
  predicate IsSeparator(c: char)
  {
    c == '\\' || c == '/'
  }

  /** `Path.GetFileName(path)`: the longest suffix of `path` that holds no
      separator, i.e. the text after the last separator. */
  function FileName(path: string): (name: string)
    ensures EndsWith(path, name)
    ensures forall i :: 0 <= i < |name| ==> !IsSeparator(name[i])
    ensures |name| < |path| ==> IsSeparator(path[|path| - |name| - 1])
  {
    if path == [] || IsSeparator(path[|path| - 1]) then ""
    else FileName(path[..|path| - 1]) + [path[|path| - 1]]
  }

  predicate IsDigit(c: char)
  {
    '0' <= c <= '9'
  }

  predicate AllDigits(s: string)
  {
    forall i :: 0 <= i < |s| ==> IsDigit(s[i])
  }

  /** The number a string of decimal digits denotes (leading zeros allowed). */
  function DecimalValue(s: string): nat
    requires AllDigits(s)
  {
    if s == [] then 0
    else DecimalValue(s[..|s| - 1]) * 10 + (s[|s| - 1] as int - '0' as int)
  }

  /** `n.ToString()` for a non-negative `n`: the shortest decimal numeral. */
  function NatToString(n: nat): (s: string)
    ensures |s| >= 1 && AllDigits(s) && DecimalValue(s) == n
    ensures s[0] == '0' ==> n == 0 && |s| == 1
  {
    if n < 10 then ['0' + n as char]
    else
      var init := NatToString(n / 10);
      var s := init + ['0' + (n % 10) as char];
      assert s[..|s| - 1] == init;
      s
  }

  /** `s.PadLeft(width, pad)`. */
  function PadLeft(s: string, width: nat, pad: char): (r: string)
    ensures |r| == if |s| < width then width else |s|
    ensures EndsWith(r, s)
    ensures forall i :: 0 <= i < |r| - |s| ==> r[i] == pad
  {
    if |s| < width then seq(width - |s|, _ => pad) + s else s
  }

  /** Zeros in front of a numeral do not change its value. */
  lemma {:induction false} LeadingZeros(zeros: string, s: string)
    requires forall i :: 0 <= i < |zeros| ==> zeros[i] == '0'
    requires AllDigits(s)
    ensures AllDigits(zeros + s) && DecimalValue(zeros + s) == DecimalValue(s)
  {
    if s == [] {
      assert zeros + s == zeros;
      if zeros != [] {
        LeadingZeros(zeros[..|zeros| - 1], s);
        assert zeros[..|zeros| - 1] + s == zeros[..|zeros| - 1];
      }
    } else {
      LeadingZeros(zeros, s[..|s| - 1]);
      assert (zeros + s)[..|zeros + s| - 1] == zeros + s[..|s| - 1];
    }
  }

  function Pow10(k: nat): nat
  {
    if k == 0 then 1 else 10 * Pow10(k - 1)
  }

  /** A number below `10^width` has at most `width` digits. */
  lemma {:induction false} NatToStringWidth(n: nat, width: nat)
    requires 1 <= width && n < Pow10(width)
    ensures |NatToString(n)| <= width
  {
    if n >= 10 {
      assert Pow10(1) == 10;
      assert width >= 2;
      NatToStringWidth(n / 10, width - 1);
    }
  }

  /** `n.ToString().PadLeft(4, '0')`, the counter of a progress message:
      a numeral of at least four digits, padded with zeros only up to four,
      that denotes `n`. */
  function PaddedCount(n: nat): (r: string)
    ensures AllDigits(r) && DecimalValue(r) == n
    ensures |r| >= 4 && (|r| > 4 ==> r[0] != '0')
  {
    var digits := NatToString(n);
    var r := PadLeft(digits, 4, '0');
    LeadingZeros(r[..|r| - |digits|], digits);
    assert r == r[..|r| - |digits|] + digits;
    r
  }

  /** Below ten thousand the counter is exactly four characters wide. */
  lemma PaddedCountWidth(n: nat)
    requires n < 10000
    ensures |PaddedCount(n)| == 4
  {
    assert Pow10(4) == 10000 by {
      assert Pow10(1) == 10 && Pow10(2) == 100 && Pow10(3) == 1000;
    }
    NatToStringWidth(n, 4);
  }
}
