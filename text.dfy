/**
 * Decimal text as the server writes and reads it: Rust's `format!` with `{}` and
 * sign-aware zero padding (`{:02}`, `{:03}`, `{:04}`), and the integer and boolean
 * `FromStr` parsers used by the form and query extractors.
 */
module Text {
  import opened Wrappers

  predicate IsDigit(c: char) { '0' <= c <= '9' }

  predicate AllDigits(s: string) { forall i :: 0 <= i < |s| ==> IsDigit(s[i]) }

  function DigitChar(d: nat): (c: char)
    requires d < 10
    ensures IsDigit(c) && c as int - '0' as int == d
  {
    ('0' as int + d) as char
  }

  /** Numeric value of a string of ASCII digits (leading zeros allowed). */
  function DigitsValue(s: string): nat
    requires AllDigits(s)
  {
    if s == [] then 0 else 10 * DigitsValue(s[..|s| - 1]) + (s[|s| - 1] as int - '0' as int)
  }

  /** The shortest decimal rendering of `n`: what `{}` prints for a non-negative integer. */
  function Digits(n: nat): (s: string)
    ensures 1 <= |s| && AllDigits(s)
    decreases n
  {
    if n < 10 then [DigitChar(n)] else Digits(n / 10) + [DigitChar(n % 10)]
  }

  function Zeros(k: nat): (s: string)
    ensures |s| == k && AllDigits(s)
  {
    seq(k, _ => '0')
  }

  /** Left-pads a digit string with zeros up to `width` characters. */
  function Pad(s: string, width: nat): (r: string)
    requires AllDigits(s)
    ensures AllDigits(r)
  {
    if |s| >= width then s else Zeros(width - |s|) + s
  }

  /**
   * `format!("{:0w$}", i)`: the sign counts towards the width and the zeros go
   * between the sign and the digits, so `Format(-5, 3) == "-05"`; width 0 is `{}`.
   */
  function Format(i: int, width: nat): string
  {
    if i < 0 then "-" + Pad(Digits(-i), if width == 0 then 0 else width - 1)
    else Pad(Digits(i), width)
  }

  /** Characters that can appear in a formatted integer. */
  predicate NumberChars(s: string) { forall i :: 0 <= i < |s| ==> IsDigit(s[i]) || s[i] == '-' }

  /** Value of an optionally negative decimal numeral. */
  function SignedValue(s: string): int
    requires NumberChars(s)
    requires s != [] && s[0] == '-' ==> AllDigits(s[1..])
    requires s == [] || s[0] != '-' ==> AllDigits(s)
  {
    if s != [] && s[0] == '-' then -(DigitsValue(s[1..]) as int) else DigitsValue(s)
  }

  lemma {:induction false} DigitsValueOfDigits(n: nat)
    ensures DigitsValue(Digits(n)) == n
    decreases n
  {
    var s := Digits(n);
    if n >= 10 {
      DigitsValueOfDigits(n / 10);
      assert s[..|s| - 1] == Digits(n / 10);
    }
  }

  lemma {:induction false} DigitsValueIgnoresZeros(k: nat, s: string)
    requires AllDigits(s)
    ensures AllDigits(Zeros(k) + s) && DigitsValue(Zeros(k) + s) == DigitsValue(s)
    decreases |s|
  {
    var z := Zeros(k) + s;
    assert AllDigits(z);
    if s == [] {
      assert z == Zeros(k);
      ZerosValue(k);
    } else {
      assert z[..|z| - 1] == Zeros(k) + s[..|s| - 1];
      DigitsValueIgnoresZeros(k, s[..|s| - 1]);
    }
  }

  lemma {:induction false} ZerosValue(k: nat)
    ensures DigitsValue(Zeros(k)) == 0
  {
    if k > 0 {
      assert Zeros(k)[..k - 1] == Zeros(k - 1);
      ZerosValue(k - 1);
    }
  }

  lemma PadValue(s: string, width: nat)
    requires AllDigits(s)
    ensures DigitsValue(Pad(s, width)) == DigitsValue(s)
  {
    if |s| < width {
      DigitsValueIgnoresZeros(width - |s|, s);
    }
  }

  /** A formatted integer is an optional minus sign followed by a non-empty run of digits. */
  lemma FormatShape(i: int, width: nat)
    ensures Format(i, width) != []
    ensures i < 0 <==> Format(i, width)[0] == '-'
    ensures i < 0 ==> AllDigits(Format(i, width)[1..])
    ensures i >= 0 ==> AllDigits(Format(i, width))
    ensures NumberChars(Format(i, width))
  {
    var s := Format(i, width);
    if i < 0 {
      assert s[1..] == Pad(Digits(-i), if width == 0 then 0 else width - 1);
    } else {
      assert IsDigit(s[0]);
    }
  }

  /** Every formatted integer reads back as itself, whatever the padding width. */
  lemma FormatValue(i: int, width: nat)
    ensures NumberChars(Format(i, width))
    ensures Format(i, width) != [] && Format(i, width)[0] == '-' ==> AllDigits(Format(i, width)[1..])
    ensures Format(i, width) == [] || Format(i, width)[0] != '-' ==> AllDigits(Format(i, width))
    ensures SignedValue(Format(i, width)) == i
  {
    FormatShape(i, width);
    var s := Format(i, width);
    if i < 0 {
      var w := if width == 0 then 0 else width - 1;
      assert s[1..] == Pad(Digits(-i), w);
      PadValue(Digits(-i), w);
      DigitsValueOfDigits(-i);
    } else {
      PadValue(Digits(i), width);
      DigitsValueOfDigits(i);
    }
  }

  /** Two integers formatted with the same width give the same text only if they are equal. */
  lemma FormatInjective(i: int, j: int, width: nat)
    requires Format(i, width) == Format(j, width)
    ensures i == j
  {
    FormatValue(i, width);
    FormatValue(j, width);
  }

  /** The text before the first `sep` in `s` (all of `s` when there is none). */
  function Before(s: string, sep: char): (r: string)
    ensures |r| <= |s| && sep !in r
  {
    if s == [] || s[0] == sep then [] else [s[0]] + Before(s[1..], sep)
  }

  /** The text after the first `sep` in `s` (empty when there is none). */
  function After(s: string, sep: char): (r: string)
    ensures |r| < |s| || r == []
  {
    if s == [] then [] else if s[0] == sep then s[1..] else After(s[1..], sep)
  }

  /** Cutting `x + [sep] + y` at its first `sep` gives back `x` and `y` when `x` holds no `sep`. */
  lemma {:induction false} SplitJoined(x: string, sep: char, y: string)
    requires sep !in x
    ensures Before(x + [sep] + y, sep) == x
    ensures After(x + [sep] + y, sep) == y
  {
    var s := x + [sep] + y;
    if x != [] {
      assert s[1..] == x[1..] + [sep] + y;
      SplitJoined(x[1..], sep, y);
    }
  }

  /** A string holding `sep` is the text before its first `sep`, the `sep`, and the text after it. */
  lemma {:induction false} SplitRejoins(s: string, sep: char)
    requires sep in s
    ensures Before(s, sep) + [sep] + After(s, sep) == s
  {
    if s[0] != sep {
      assert s == [s[0]] + s[1..];
      SplitRejoins(s[1..], sep);
    }
  }

  /** Joining with a separator is injective when the left parts hold no separator. */
  lemma SplitAtFirst(x1: string, y1: string, x2: string, y2: string, sep: char)
    requires x1 + [sep] + y1 == x2 + [sep] + y2
    requires sep !in x1 && sep !in x2
    ensures x1 == x2 && y1 == y2
  {
    SplitJoined(x1, sep, y1);
    SplitJoined(x2, sep, y2);
  }

  lemma FormatHasNo(i: int, width: nat, c: char)
    requires !IsDigit(c) && c != '-'
    ensures c !in Format(i, width)
  {
    FormatValue(i, width);
  }

  // ---------------------------------------------------------------------------
  // FromStr

  const I64Min: int := -0x8000_0000_0000_0000
  const I64Max: int := 0x7FFF_FFFF_FFFF_FFFF
  const U64Max: int := 0xFFFF_FFFF_FFFF_FFFF

  /**
   * The standard integer parser (`FromStr` for i64/u64, radix 10): an optional
   * `+` (or `-` for a signed type), then at least one ASCII digit and nothing else,
   * with a value inside the type's range. No whitespace is accepted.
   */
  function ParseInteger(s: string, signed: bool, lo: int, hi: int): (r: Option<int>)
    ensures r.Some? ==> lo <= r.value <= hi
    ensures r.Some? ==> s != [] && (IsDigit(s[0]) || s[0] == '+' || (signed && s[0] == '-'))
  {
    if |s| == 0 then None
    else if (s[0] == '+' || s[0] == '-') && |s| == 1 then None
    else
      var neg := signed && s[0] == '-';
      var digits := if s[0] == '+' || neg then s[1..] else s;
      if !AllDigits(digits) then None
      else
        var v: int := if neg then -(DigitsValue(digits) as int) else DigitsValue(digits);
        if lo <= v <= hi then Some(v) else None
  }

  function ParseI64(s: string): Option<int> { ParseInteger(s, true, I64Min, I64Max) }

  function ParseU64(s: string): Option<int> { ParseInteger(s, false, 0, U64Max) }

  /** Printing an in-range integer with `{}` and parsing it back gives the integer. */
  lemma ParseFormatRoundTrip(i: int, signed: bool, lo: int, hi: int)
    requires lo <= i <= hi
    requires i < 0 ==> signed
    ensures ParseInteger(Format(i, 0), signed, lo, hi) == Some(i)
  {
    FormatValue(i, 0);
    var s := Format(i, 0);
    if i < 0 {
      assert s[0] == '-' && |s| >= 2;
      assert s[1..] == Digits(-i);
    } else {
      assert IsDigit(s[0]);
    }
  }

  /** `bool::from_str`: exactly "true" or "false". */
  function ParseBool(s: string): (r: Option<bool>)
    ensures r == Some(true) <==> s == "true"
    ensures r == Some(false) <==> s == "false"
  {
    if s == "true" then Some(true) else if s == "false" then Some(false) else None
  }
}
