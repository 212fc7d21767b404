/** Text handling the game relies on: Rust's `str::trim`, decimal rendering of
    integers (`format!("{}", n)`) and `str::parse` into unsigned integers. */
module Text {
  import opened Wrappers

  /** Rust's `u8`. */
  type u8 = n: nat | n < 256

  const U8_MAX: nat := 255
  /** `usize` on a 64-bit target. */
  const USIZE_MAX: nat := 0xFFFF_FFFF_FFFF_FFFF

  // ---------------------------------------------------------------------------
  // Whitespace and trimming
  // ---------------------------------------------------------------------------

  /** Rust's `char::is_whitespace`: the Unicode `White_Space` property. */
  predicate IsWhitespace(c: char) {
    var n := c as int;
    || (0x09 <= n <= 0x0D) || n == 0x20 || n == 0x85 || n == 0xA0 || n == 0x1680
    || (0x2000 <= n <= 0x200A) || n == 0x2028 || n == 0x2029 || n == 0x202F
    || n == 0x205F || n == 0x3000
  }

  /** Every character of `s` in `[lo, hi)` is whitespace. */
  predicate WhitespaceBetween(s: string, lo: nat, hi: nat)
    requires lo <= hi <= |s|
  {
    forall m :: lo <= m < hi ==> IsWhitespace(s[m])
  }

  /** Where `str::trim_start` cuts: the first non-whitespace position at or
      after `i`, or `|s|` if there is none. */
  function Leading(s: string, i: nat): (k: nat)
    requires i <= |s|
    ensures i <= k <= |s|
    decreases |s| - i
  {
    if i < |s| && IsWhitespace(s[i]) then Leading(s, i + 1) else i
  }

  /** Where `str::trim_end` cuts in `s[lo..j]`: just after the last
      non-whitespace position before `j`, or `lo` if there is none. */
  function Trailing(s: string, lo: nat, j: nat): (k: nat)
    requires lo <= j <= |s|
    ensures lo <= k <= j
    decreases j
  {
    if lo < j && IsWhitespace(s[j - 1]) then Trailing(s, lo, j - 1) else j
  }

  /** Rust's `str::trim`: `trim_start` then `trim_end`, i.e. the text between
      the leading and the trailing whitespace; `TrimSpec` states what it is. */
  function Trim(s: string): string {
    var i := Leading(s, 0);
    s[i..Trailing(s, i, |s|)]
  }

  /** `Leading` skips exactly a run of whitespace and stops at a
      non-whitespace character or at the end. */
  lemma {:induction false} LeadingSpec(s: string, i: nat)
    requires i <= |s|
    ensures WhitespaceBetween(s, i, Leading(s, i))
    ensures Leading(s, i) < |s| ==> !IsWhitespace(s[Leading(s, i)])
    decreases |s| - i
  {
    if i < |s| && IsWhitespace(s[i]) {
      LeadingSpec(s, i + 1);
    }
  }

  /** `Trailing` skips exactly a run of whitespace backwards and stops after a
      non-whitespace character or at `lo`. */
  lemma {:induction false} TrailingSpec(s: string, lo: nat, j: nat)
    requires lo <= j <= |s|
    ensures WhitespaceBetween(s, Trailing(s, lo, j), j)
    ensures Trailing(s, lo, j) > lo ==> !IsWhitespace(s[Trailing(s, lo, j) - 1])
    decreases j
  {
    if lo < j && IsWhitespace(s[j - 1]) {
      TrailingSpec(s, lo, j - 1);
    }
  }

  /** `r` sits in `s` at offset `i` with only whitespace around it. */
  predicate TrimmedAt(s: string, i: nat, r: string)
    requires i + |r| <= |s|
  {
    && s[i..i + |r|] == r
    && WhitespaceBetween(s, 0, i)
    && WhitespaceBetween(s, i + |r|, |s|)
  }

  /** The trimmed text is a slice of the input, everything cut off around it
      is whitespace, and it neither starts nor ends with whitespace. */
  lemma TrimSpec(s: string)
    ensures var r := Trim(s);
      && (r == [] || (!IsWhitespace(r[0]) && !IsWhitespace(r[|r| - 1])))
      && exists i :: 0 <= i <= |s| - |r| && TrimmedAt(s, i, r)
  {
    var i := Leading(s, 0);
    var j := Trailing(s, i, |s|);
    LeadingSpec(s, 0);
    TrailingSpec(s, i, |s|);
    var r := s[i..j];
    assert r == [] || (r[0] == s[i] && r[|r| - 1] == s[j - 1]);
    assert TrimmedAt(s, i, r);
  }

  /** `Leading` stops at the first non-whitespace position. */
  lemma {:induction false} LeadingAt(s: string, i: nat, k: nat)
    requires i <= k <= |s| && WhitespaceBetween(s, i, k)
    requires k < |s| ==> !IsWhitespace(s[k])
    ensures Leading(s, i) == k
    decreases k - i
  {
    if i < k {
      LeadingAt(s, i + 1, k);
    }
  }

  /** `Trailing` stops just after the last non-whitespace position. */
  lemma {:induction false} TrailingAt(s: string, lo: nat, k: nat, j: nat)
    requires lo <= k <= j <= |s| && WhitespaceBetween(s, k, j)
    requires lo < k ==> !IsWhitespace(s[k - 1])
    ensures Trailing(s, lo, j) == k
    decreases j - k
  {
    if k < j {
      TrailingAt(s, lo, k, j - 1);
    }
  }

  /** The trimmed text is pinned down: any slice of `s` that is surrounded
      only by whitespace and neither starts nor ends with it is `Trim(s)`. */
  lemma TrimCharacterised(s: string, i: nat, j: nat)
    requires i <= j <= |s|
    requires WhitespaceBetween(s, 0, i) && WhitespaceBetween(s, j, |s|)
    requires i < j ==> !IsWhitespace(s[i]) && !IsWhitespace(s[j - 1])
    ensures Trim(s) == s[i..j]
  {
    if i < j {
      LeadingAt(s, 0, i);
      TrailingAt(s, i, j, |s|);
    } else {
      assert WhitespaceBetween(s, 0, |s|) by {
        forall m | 0 <= m < |s| ensures IsWhitespace(s[m]) {
          if m >= j { assert WhitespaceBetween(s, j, |s|); }
        }
      }
      LeadingAt(s, 0, |s|);
    }
  }

  /** A line read from a terminal carries its line break; trimming removes it. */
  lemma TrimDropsLineBreak(s: string)
    ensures Trim(s + "\n") == Trim(s)
  {
    var u := s + "\n";
    var i := Leading(s, 0);
    var j := Trailing(s, i, |s|);
    LeadingSpec(s, 0);
    TrailingSpec(s, i, |s|);
    assert u[i..j] == s[i..j];
    assert WhitespaceBetween(u, 0, i) by {
      forall m | 0 <= m < i ensures IsWhitespace(u[m]) { assert u[m] == s[m]; }
    }
    assert WhitespaceBetween(u, j, |u|) by {
      forall m | j <= m < |u| ensures IsWhitespace(u[m]) {
        if m < |s| { assert u[m] == s[m]; }
      }
    }
    if i < j {
      assert u[i] == s[i] && u[j - 1] == s[j - 1];
    }
    TrimCharacterised(u, i, j);
  }

  /** Trimming twice is trimming once. */
  lemma TrimIdempotent(s: string)
    ensures Trim(Trim(s)) == Trim(s)
  {
    TrimSpec(s);
    var r := Trim(s);
    TrimCharacterised(r, 0, |r|);
    assert r[0..|r|] == r;
  }

  // ---------------------------------------------------------------------------
  // Decimal digits
  // ---------------------------------------------------------------------------

  predicate IsDigit(c: char) {
    '0' <= c <= '9'
  }

  predicate AllDigits(s: string) {
    forall i :: 0 <= i < |s| ==> IsDigit(s[i])
  }

  function DigitValue(c: char): (d: nat)
    requires IsDigit(c)
    ensures d < 10
  {
    (c as int) - ('0' as int)
  }

  function DigitChar(d: nat): (c: char)
    requires d < 10
    ensures IsDigit(c) && DigitValue(c) == d
  {
    (('0' as int) + d) as char
  }

  /** The value of a string of decimal digits, most significant first. */
  function DigitsValue(s: string): nat
    requires AllDigits(s)
    decreases |s|
  {
    if |s| == 0 then 0 else DigitsValue(s[..|s| - 1]) * 10 + DigitValue(s[|s| - 1])
  }

  /** Rust's `Display` for unsigned integers: shortest decimal numeral. */
  function Show(n: nat): (r: string)
    ensures |r| > 0 && AllDigits(r)
    ensures DigitsValue(r) == n
    ensures r[0] == '0' <==> n == 0
    ensures r[0] == '0' ==> |r| == 1
    decreases n
  {
    if n < 10 then
      [DigitChar(n)]
    else
      var p := Show(n / 10);
      var r := p + [DigitChar(n % 10)];
      assert r[..|r| - 1] == p;
      r
  }

  /** Appending digits never lowers the value of a numeral. */
  lemma {:induction false} PrefixValueLe(s: string, j: nat)
    requires AllDigits(s) && j <= |s|
    ensures DigitsValue(s[..j]) <= DigitsValue(s)
    decreases |s|
  {
    if j < |s| {
      var p := s[..|s| - 1];
      assert p[..j] == s[..j];
      PrefixValueLe(p, j);
    } else {
      assert s[..j] == s;
    }
  }

  // ---------------------------------------------------------------------------
  // Parsing unsigned integers (`str::parse::<u8>()`, `str::parse::<usize>()`)
  // ---------------------------------------------------------------------------

  /** The checked digit-by-digit accumulation of `from_str_radix`: fails on a
      non-digit and as soon as the running value passes `max` (`checked_mul`
      and `checked_add` overflowing; `acc * 10` alone exceeding `max` implies
      the sum does too, so one test covers both). */
  function Accumulate(digits: string, i: nat, acc: nat, max: nat): Option<nat>
    requires i <= |digits|
    decreases |digits| - i
  {
    if i == |digits| then Some(acc)
    else if !IsDigit(digits[i]) then None
    else
      var next := acc * 10 + DigitValue(digits[i]);
      if next > max then None else Accumulate(digits, i + 1, next, max)
  }

  /** `str::parse` into an unsigned integer type whose largest value is `max`:
      the empty string, a lone sign, a `-` (unsigned types take no minus), any
      non-digit and any value above `max` are all errors. */
  function ParseUnsigned(s: string, max: nat): Option<nat> {
    if |s| == 0 then None
    else if (s[0] == '+' || s[0] == '-') && |s| == 1 then None
    else Accumulate(Unsigned(s), 0, 0, max)
  }

  /** The digits of a numeral after an optional leading `+`. */
  function Unsigned(s: string): string {
    if |s| > 0 && s[0] == '+' then s[1..] else s
  }

  /** A well-formed unsigned numeral: optional `+`, then one or more digits. */
  predicate IsNumeral(s: string) {
    |Unsigned(s)| > 0 && AllDigits(Unsigned(s))
  }

  function NumeralValue(s: string): nat
    requires IsNumeral(s)
  {
    DigitsValue(Unsigned(s))
  }

  /** The checked accumulation from position `i` agrees with the final-value
      test: overflowing on the way is the same as the whole value being too
      large. */
  lemma {:induction false} AccumulateSpec(d: string, i: nat, max: nat)
    requires i <= |d| && AllDigits(d[..i]) && DigitsValue(d[..i]) <= max
    ensures Accumulate(d, i, DigitsValue(d[..i]), max)
         == if AllDigits(d) && DigitsValue(d) <= max then Some(DigitsValue(d)) else None
    decreases |d| - i
  {
    if i == |d| {
      assert d[..i] == d;
    } else if !IsDigit(d[i]) {
      assert !AllDigits(d);
    } else {
      var p := d[..i + 1];
      assert p[..i] == d[..i];
      assert AllDigits(p);
      assert DigitsValue(p) == DigitsValue(d[..i]) * 10 + DigitValue(d[i]);
      if DigitsValue(p) > max {
        if AllDigits(d) {
          PrefixValueLe(d, i + 1);
        }
      } else {
        AccumulateSpec(d, i + 1, max);
      }
    }
  }

  /** What `ParseUnsigned` accepts and what it yields, stated without the
      accumulation: exactly the numerals whose value fits, and their value. */
  lemma ParseUnsignedSpec(s: string, max: nat)
    ensures ParseUnsigned(s, max).Some? <==> IsNumeral(s) && NumeralValue(s) <= max
    ensures ParseUnsigned(s, max).Some? ==> ParseUnsigned(s, max).value == NumeralValue(s)
  {
    if |s| > 0 && !((s[0] == '+' || s[0] == '-') && |s| == 1) {
      var d := Unsigned(s);
      assert d[..0] == [];
      AccumulateSpec(d, 0, max);
    }
  }

  /** `str::parse::<u8>()`; what it accepts is stated by `ParseU8Spec`. */
  function ParseU8(s: string): Option<u8> {
    match ParseUnsigned(s, U8_MAX)
    case Some(v) => ParseUnsignedSpec(s, U8_MAX); Some(v as u8)
    case None => None
  }

  /** `str::parse::<usize>()`. */
  function ParseUsize(s: string): Option<nat> {
    ParseUnsigned(s, USIZE_MAX)
  }

  /** `str::parse::<u8>()` accepts exactly the numerals whose value is at
      most 255, and yields their value. */
  lemma ParseU8Spec(s: string)
    ensures ParseU8(s).Some? <==> IsNumeral(s) && NumeralValue(s) <= U8_MAX
    ensures ParseU8(s).Some? ==> ParseU8(s).value == NumeralValue(s)
  {
    ParseUnsignedSpec(s, U8_MAX);
  }

  /** `str::parse::<usize>()` accepts exactly the numerals whose value fits
      in 64 bits, and yields their value. */
  lemma ParseUsizeSpec(s: string)
    ensures ParseUsize(s).Some? <==> IsNumeral(s) && NumeralValue(s) <= USIZE_MAX
    ensures ParseUsize(s).Some? ==> ParseUsize(s).value == NumeralValue(s)
  {
    ParseUnsignedSpec(s, USIZE_MAX);
  }

  /** Rendering then parsing gives the number back, for every value the
      target type holds. */
  lemma ShowParses(n: nat, max: nat)
    requires n <= max
    ensures ParseUnsigned(Show(n), max) == Some(n)
  {
    var s := Show(n);
    assert Unsigned(s) == s;
    ParseUnsignedSpec(s, max);
  }

  /** Different numbers render differently. */
  lemma ShowInjective(m: nat, n: nat)
    requires Show(m) == Show(n)
    ensures m == n
  {
  }
}
