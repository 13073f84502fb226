/** The integer helpers of Helpers.cpp: decimal formatting and parsing, the
    trailing-number helpers used to name copies ("Box 2", "Box 3"), alignment,
    powers of two and little-endian byte parsing. Machine integers are
    mathematical integers with their C++ range stated explicitly. */
module Numbers {
  import opened Common
  import opened Strings

  const INT32_MIN: int := -0x8000_0000
  const INT32_MAX: int := 0x7FFF_FFFF

  predicate IsInt32(x: int)
  {
    INT32_MIN <= x <= INT32_MAX
  }

  // ---------------------------------------------------------------------------
  // RoundUp
  // ---------------------------------------------------------------------------

  function Abs(x: int): nat
  {
    if x < 0 then -x else x
  }

  /** A non-zero multiple of `m` is at least `|m|` in size. */
  lemma MultipleAtLeast(m: int, k: int)
    requires k != 0
    ensures Abs(m * k) >= Abs(m)
  {
    if m > 0 && k > 0 { MulPos(m, k - 1); }
    else if m > 0 && k < 0 { MulPos(m, -k - 1); assert m * k == -(m * (-k)); }
    else if m < 0 && k > 0 { MulPos(-m, k - 1); assert m * k == -((-m) * k); }
    else if m < 0 && k < 0 { MulPos(-m, -k - 1); assert m * k == (-m) * (-k); }
  }

  lemma MulPos(a: nat, b: nat)
    ensures a * (b + 1) >= a
  {
  }

  /** Multiples of `m` leave no remainder. */
  lemma MulMod(m: int, q: int)
    requires m != 0
    ensures (m * q) % m == 0
  {
    var x := m * q;
    var d, r := x / m, x % m;
    assert x == m * d + r;
    assert r == m * (q - d);
    if q - d != 0 { MultipleAtLeast(m, q - d); }
  }

  /** C++'s `%`: the quotient is truncated towards zero, so the remainder takes
      the sign of the dividend. */
  function TruncRem(a: int, b: int): (r: int)
    requires b != 0
    ensures Abs(r) < Abs(b)
    ensures a >= 0 ==> r >= 0
    ensures a < 0 ==> r <= 0
    ensures (a - r) % b == 0
  {
    TruncRemDivides(a, b);
    var n := Abs(a) % Abs(b);
    if a >= 0 then n else -n
  }

  /** What is left after the truncated remainder is a multiple of the divisor. */
  lemma TruncRemDivides(a: int, b: int)
    requires b != 0
    ensures var n := Abs(a) % Abs(b);
      (a - (if a >= 0 then n else -n)) % b == 0
  {
    var n := Abs(a) % Abs(b);
    var q := Abs(a) / Abs(b);
    var sq := if (a >= 0) == (b > 0) then q else -q;
    SignedQuotient(a, b, n, q);
    MulMod(b, sq);
  }

  /** The quotient of the magnitudes, given the sign C++ gives it, divides out
      everything but the truncated remainder. */
  lemma SignedQuotient(a: int, b: int, n: int, q: int)
    requires b != 0 && 0 <= n && 0 <= q && Abs(a) == Abs(b) * q + n
    ensures a - (if a >= 0 then n else -n) == b * (if (a >= 0) == (b > 0) then q else -q)
  {
    if b < 0 {
      assert Abs(b) * q == -(b * q);
      assert b * (-q) == -(b * q);
    }
    if a < 0 && b > 0 {
      assert b * (-q) == -(b * q);
    }
  }

  /** `val + alignment - (val % alignment)` on 32-bit integers. The source divides
      by `alignment`, so it must not be zero, and every intermediate must stay in
      range (signed overflow is undefined). For a non-negative `val` the result is
      the smallest multiple of `alignment` strictly above `val`, so an aligned
      value moves up by a whole step; a negative unaligned `val` skips one
      multiple more. */
  function RoundUp(val: int, alignment: int): (r: int)
    requires IsInt32(val) && IsInt32(alignment) && alignment != 0
    requires !(val == INT32_MIN && alignment == -1)
    requires IsInt32(val + alignment)
    requires IsInt32(val + alignment - TruncRem(val, alignment))
    ensures IsInt32(r)
    ensures r % alignment == 0
    ensures alignment > 0 && val >= 0 ==> val < r <= val + alignment
    ensures alignment > 0 && val >= 0 && val % alignment == 0 ==> r == val + alignment
    ensures alignment > 0 && val < 0 ==> val + alignment <= r < val + 2 * alignment
  {
    var rem := TruncRem(val, alignment);
    ModShift(val - rem, alignment);
    val + alignment - rem
  }

  /** Adding the modulus keeps a value a multiple of it. */
  lemma ModShift(x: int, m: int)
    requires m != 0 && x % m == 0
    ensures (x + m) % m == 0
  {
    var q := x / m;
    assert x == m * q;
    assert x + m == m * (q + 1);
    MulMod(m, q + 1);
  }

  /** For non-negative inputs, RoundUp returns the least multiple above `val`. */
  lemma RoundUpIsLeast(val: int, alignment: int, m: int)
    requires 0 <= val <= INT32_MAX && 0 < alignment <= INT32_MAX
    requires IsInt32(val + alignment)
    requires m % alignment == 0 && val < m
    ensures RoundUp(val, alignment) <= m
  {
    var r := RoundUp(val, alignment);
    var qr, qm := r / alignment, m / alignment;
    assert r == alignment * qr;
    assert m == alignment * qm;
    assert r - m == alignment * (qr - qm);
    if qr - qm > 0 {
      MultipleAtLeast(alignment, qr - qm);
    }
  }

  // ---------------------------------------------------------------------------
  // Decimal digits (`std::to_string` and `atoi` on non-negative values)
  // ---------------------------------------------------------------------------

  function DigitChar(d: nat): (c: char)
    requires d < 10
    ensures IsDigit(c)
  {
    ('0' as int + d) as char
  }

  function DigitValue(c: char): (d: nat)
    requires IsDigit(c)
    ensures d < 10
  {
    (c as int - '0' as int)
  }

  lemma DigitRoundTrip(d: nat, c: char)
    ensures d < 10 ==> DigitValue(DigitChar(d)) == d
    ensures IsDigit(c) ==> DigitChar(DigitValue(c)) == c
  {
  }

  /** `std::to_string(n)`: the shortest decimal spelling of `n`. */
  function DecimalDigits(n: nat): (r: string)
    ensures 1 <= |r| && AllDigits(r)
    ensures |r| > 1 ==> r[0] != '0'
  {
    if n < 10 then [DigitChar(n)] else DecimalDigits(n / 10) + [DigitChar(n % 10)]
  }

  /** The value of a string of decimal digits, read most significant first. */
  function DecimalValue(s: string): nat
    requires AllDigits(s)
  {
    if |s| == 0 then 0 else DecimalValue(s[..|s| - 1]) * 10 + DigitValue(s[|s| - 1])
  }

  /** Reading back what `to_string` wrote gives the number. */
  lemma {:induction false} DecimalRoundTrip(n: nat)
    ensures DecimalValue(DecimalDigits(n)) == n
  {
    var r := DecimalDigits(n);
    if n >= 10 {
      DecimalRoundTrip(n / 10);
      assert r[..|r| - 1] == DecimalDigits(n / 10);
    }
  }

  /** Leading zeros do not change the value of a digit string. */
  lemma {:induction false} LeadingZerosIgnored(k: nat, s: string)
    requires AllDigits(s)
    ensures AllDigits(Repeat('0', k) + s)
    ensures DecimalValue(Repeat('0', k) + s) == DecimalValue(s)
    decreases |s|
  {
    var z := Repeat('0', k);
    var t := z + s;
    if |s| == 0 {
      assert t == z;
      ZerosHaveValueZero(k);
    } else {
      assert t[..|t| - 1] == z + s[..|s| - 1];
      LeadingZerosIgnored(k, s[..|s| - 1]);
    }
  }

  lemma {:induction false} ZerosHaveValueZero(k: nat)
    ensures AllDigits(Repeat('0', k))
    ensures DecimalValue(Repeat('0', k)) == 0
  {
    if k > 0 {
      assert Repeat('0', k)[..k - 1] == Repeat('0', k - 1);
      ZerosHaveValueZero(k - 1);
    }
  }

  // ---------------------------------------------------------------------------
  // IntToString
  // ---------------------------------------------------------------------------

  /** `n` left-padded with `pad` to `minChars` characters. */
  predicate PaddedDigits(r: string, n: nat, minChars: int, pad: char)
  {
    var digits := DecimalDigits(n);
    |r| == Max(|digits|, minChars)
    && r[|r| - |digits|..] == digits
    && forall k :: 0 <= k < |r| - |digits| ==> r[k] == pad
  }

  /** `IntToString(i, minChars, pad)`: the digits of `|i|` left-padded with `pad` to
      `minChars` characters, with a leading '-' for negative `i` that is not
      counted in `minChars`. `glm::abs(INT_MIN)` overflows, so `i` must be above
      `INT32_MIN`. */
  function IntToString(i: int, minChars: nat, pad: char): (r: string)
    requires IsInt32(i) && i != INT32_MIN
    requires minChars <= 0xFFFF
    ensures i >= 0 ==> PaddedDigits(r, i, minChars, pad)
    ensures i < 0 ==> |r| >= 2 && r[0] == '-' && PaddedDigits(r[1..], -i, minChars, pad)
  {
    var result := DecimalDigits(Abs(i));
    if i < 0 then
      if |result| < minChars then
        assert ("-" + Repeat(pad, minChars - |result|) + result)[1..]
            == Repeat(pad, minChars - |result|) + result;
        "-" + Repeat(pad, minChars - |result|) + result
      else
        assert ("-" + result)[1..] == result;
        "-" + result
    else
      if |result| < minChars then Repeat(pad, minChars - |result|) + result else result
  }

  /** IntToString is PadStart applied to the decimal digits of `|i|`. */
  lemma IntToStringIsPadStart(i: int, minChars: nat, pad: char)
    requires IsInt32(i) && i != INT32_MIN && minChars <= 0xFFFF
    ensures i >= 0 ==> IntToString(i, minChars, pad) == PadStart(DecimalDigits(i), minChars, pad)
    ensures i < 0 ==> IntToString(i, minChars, pad) == "-" + PadStart(DecimalDigits(-i), minChars, pad)
  {
  }

  /** With '0' padding, reading the digits back gives `|i|`. */
  lemma IntToStringRoundTrip(i: int, minChars: nat)
    requires IsInt32(i) && i != INT32_MIN && minChars <= 0xFFFF
    ensures var r := IntToString(i, minChars, '0');
      var body := if i < 0 then r[1..] else r;
      AllDigits(body) && DecimalValue(body) == Abs(i)
  {
    var r := IntToString(i, minChars, '0');
    var body := if i < 0 then r[1..] else r;
    assert PaddedDigits(body, Abs(i), minChars, '0');
    PaddedDigitsRoundTrip(body, Abs(i), minChars);
  }

  /** Digits left-padded with zeros read back as the number. */
  lemma PaddedDigitsRoundTrip(body: string, n: nat, minChars: int)
    requires PaddedDigits(body, n, minChars, '0')
    ensures AllDigits(body) && DecimalValue(body) == n
  {
    var digits := DecimalDigits(n);
    var k := |body| - |digits|;
    assert body == Repeat('0', k) + digits;
    LeadingZerosIgnored(k, digits);
    DecimalRoundTrip(n);
  }

  // ---------------------------------------------------------------------------
  // GetNumberEndingWith, GetIncrementedPostFixedStr
  // ---------------------------------------------------------------------------

  /** Every character of `s` at an index in `[lo, hi)` is a digit. */
  predicate DigitsBetween(s: string, lo: int, hi: int)
  {
    forall j :: lo <= j < hi && 0 <= j < |s| ==> IsDigit(s[j])
  }

  /** The loop `while (firstDigit >= 0 && isdigit(str[firstDigit])) firstDigit--;`
      followed by `firstDigit++`: where the trailing run of digits in
      `str[..end]` starts. */
  function TrailingDigitStart(str: string, end: nat): (k: nat)
    requires end <= |str|
    ensures k <= end
    ensures DigitsBetween(str, k, end)
    ensures k == 0 || !IsDigit(str[k - 1])
  {
    if end == 0 || !IsDigit(str[end - 1]) then end else TrailingDigitStart(str, end - 1)
  }

  datatype TrailingNumber = TrailingNumber(num: int, numChars: int)

  /** The number a string ends with and how many digits spell it; `-1` and `0`
      when the string is empty or does not end in a digit. The source keeps the
      string length in an `i16`, so strings must be shorter than 32768. */
  function GetNumberEndingWith(str: string): (r: TrailingNumber)
    requires |str| < 0x8000
    ensures |str| == 0 || !IsDigit(str[|str| - 1]) <==> r == TrailingNumber(-1, 0)
    ensures r.num != -1 ==>
      1 <= r.numChars <= |str|
      && DigitsBetween(str, |str| - r.numChars, |str|)
      && (r.numChars == |str| || !IsDigit(str[|str| - r.numChars - 1]))
      && r.num == DecimalValue(str[|str| - r.numChars..])
  {
    if |str| == 0 then TrailingNumber(-1, 0)
    else if !IsDigit(str[|str| - 1]) then TrailingNumber(-1, 0)
    else
      var firstDigit := TrailingDigitStart(str, |str|);
      TrailingNumber(DecimalValue(str[firstDigit..]), |str| - firstDigit)
  }

  /** A string with no trailing digits followed by a digit string ends with exactly
      that digit string. */
  lemma NumberEndingWithAppend(stem: string, digits: string)
    requires |stem + digits| < 0x8000
    requires |digits| >= 1 && AllDigits(digits)
    requires |stem| == 0 || !IsDigit(stem[|stem| - 1])
    ensures GetNumberEndingWith(stem + digits) == TrailingNumber(DecimalValue(digits), |digits|)
  {
    var s := stem + digits;
    assert IsDigit(s[|s| - 1]);
    var t := GetNumberEndingWith(s);
    var k := |s| - t.numChars;
    assert |stem| > 0 ==> !IsDigit(s[|stem| - 1]);
    assert k == |stem|;
    assert s[|stem|..] == digits;
  }

  function Pow10(k: nat): nat
  {
    if k == 0 then 1 else 10 * Pow10(k - 1)
  }

  /** A number below 10^k has at most k digits. */
  lemma {:induction false} DigitsLength(n: nat, k: nat)
    requires 1 <= k && n < Pow10(k)
    ensures |DecimalDigits(n)| <= k
    decreases k
  {
    if n >= 10 {
      assert k >= 2;
      DigitsLength(n / 10, k - 1);
    }
  }

  /** What GetNumberEndingWith leaves of a non-empty name once its trailing
      number is cut off: a stem that does not end in a digit. */
  lemma StemHasNoTrailingDigit(namePrefix: string)
    requires 0 < |namePrefix| < 0x8000
    ensures var t := GetNumberEndingWith(namePrefix);
      && 0 <= t.numChars <= |namePrefix|
      && var stem := namePrefix[..|namePrefix| - t.numChars];
      |stem| == 0 || !IsDigit(stem[|stem| - 1])
  {
    var t := GetNumberEndingWith(namePrefix);
    var stem := namePrefix[..|namePrefix| - t.numChars];
    if t.num != -1 && |stem| > 0 {
      assert stem[|stem| - 1] == namePrefix[|namePrefix| - t.numChars - 1];
    }
  }

  /** A stem without a trailing digit followed by IntToString of a positive
      number reads back as that number, with as many digits as IntToString wrote. */
  lemma StemThenNumber(stem: string, m: int, numChars: nat)
    requires 0 < m <= INT32_MAX && |stem| + numChars < 0x7FF0
    requires |stem| == 0 || !IsDigit(stem[|stem| - 1])
    ensures var tail := IntToString(m, numChars, '0');
      |stem + tail| < 0x8000
      && GetNumberEndingWith(stem + tail) == TrailingNumber(m, Max(|DecimalDigits(m)|, numChars))
  {
    var tail := IntToString(m, numChars, '0');
    assert Pow10(10) == 10_000_000_000;
    DigitsLength(m, 10);
    IntToStringRoundTrip(m, numChars);
    NumberEndingWithAppend(stem, tail);
  }

  /** A stem without a trailing digit followed by `num + 1` padded with zeros
      to `numChars` digits: it keeps the stem and, with room to spare below the
      length limit, reads back as `num + 1`. */
  function NextInSeries(stem: string, num: int, numChars: nat): (r: string)
    requires |stem| == 0 || !IsDigit(stem[|stem| - 1])
    requires 0 <= num < INT32_MAX && numChars <= 0xFFFF
    ensures r == stem + PadStart(DecimalDigits(num + 1), numChars, '0')
    ensures |r| == |stem| + Max(|DecimalDigits(num + 1)|, numChars)
    ensures StartsWith(r, stem)
    ensures |stem| + numChars < 0x7FF0 ==>
      |r| < 0x8000
      && GetNumberEndingWith(r) == TrailingNumber(num + 1, Max(|DecimalDigits(num + 1)|, numChars))
  {
    var tail := IntToString(num + 1, numChars, '0');
    IntToStringIsPadStart(num + 1, numChars, '0');
    StartsWithConcat(stem, tail);
    assert |stem| + numChars < 0x7FF0 ==>
      |stem + tail| < 0x8000
      && GetNumberEndingWith(stem + tail) == TrailingNumber(num + 1, Max(|DecimalDigits(num + 1)|, numChars))
    by {
      if |stem| + numChars < 0x7FF0 {
        StemThenNumber(stem, num + 1, numChars);
      }
    }
    stem + tail
  }

  /** The part of a name before its trailing number; it does not end in a digit. */
  function NameStem(namePrefix: string): (r: string)
    requires 0 < |namePrefix| < 0x8000
    ensures 0 <= GetNumberEndingWith(namePrefix).numChars <= |namePrefix|
    ensures r == namePrefix[..|namePrefix| - GetNumberEndingWith(namePrefix).numChars]
    ensures |r| + GetNumberEndingWith(namePrefix).numChars == |namePrefix|
    ensures |r| == 0 || !IsDigit(r[|r| - 1])
  {
    StemHasNoTrailingDigit(namePrefix);
    namePrefix[..|namePrefix| - GetNumberEndingWith(namePrefix).numChars]
  }

  /** The next name in a numbered series: the trailing number incremented, keeping
      at least as many digits; a name without a number gets "2"; an empty prefix
      gives `defaultName`. The result is the prefix's non-numeric stem followed by
      `n + 1` (`n` is 1 for a name without a number) zero-padded to the old digit
      count, and reading its trailing number back gives `n + 1`. That read-back
      needs room for ten more digits below the `i16` length limit. */
  function GetIncrementedPostFixedStr(namePrefix: string, defaultName: string): (r: string)
    requires |namePrefix| < 0x8000
    requires GetNumberEndingWith(namePrefix).num < INT32_MAX
    ensures |namePrefix| == 0 ==> r == defaultName
    ensures |namePrefix| > 0 ==> StartsWith(r, NameStem(namePrefix))
    ensures |namePrefix| > 0 ==>
      var t := GetNumberEndingWith(namePrefix);
      var n := if t.num == -1 then 1 else t.num;
      r == NameStem(namePrefix) + PadStart(DecimalDigits(n + 1), t.numChars, '0')
    ensures 0 < |namePrefix| < 0x7FF0 ==>
      var t := GetNumberEndingWith(namePrefix);
      var n := if t.num == -1 then 1 else t.num;
      |r| < 0x8000
      && GetNumberEndingWith(r) == TrailingNumber(n + 1, Max(|DecimalDigits(n + 1)|, t.numChars))
  {
    if |namePrefix| == 0 then defaultName
    else
      var t := GetNumberEndingWith(namePrefix);
      var num := if t.num == -1 then 1 else t.num;
      var stem := NameStem(namePrefix);
      assert |stem| + t.numChars == |namePrefix|;
      NextInSeries(stem, num, t.numChars)
  }

  lemma NoTrailingNumberExample()
    ensures GetNumberEndingWith("Box").num == -1
  {
  }

  lemma TrailingNumberExample()
    ensures GetNumberEndingWith("Box9") == TrailingNumber(9, 1)
  {
    assert TrailingDigitStart("Box9", 4) == 3;
    assert "Box9"[3..] == "9";
    assert DecimalValue("9") == 9 by { assert "9"[..0] == ""; }
  }

  /** The increment of a name, read off its stem and trailing number. */
  lemma IncrementedFromParts(namePrefix: string, stem: string, t: TrailingNumber, digits: string, expected: string)
    requires 0 < |namePrefix| < 0x8000
    requires GetNumberEndingWith(namePrefix) == t && t.num < INT32_MAX
    requires NameStem(namePrefix) == stem
    requires DecimalDigits((if t.num == -1 then 1 else t.num) + 1) == digits
    requires stem + PadStart(digits, t.numChars, '0') == expected
    ensures GetIncrementedPostFixedStr(namePrefix, "x") == expected
  {
  }

  lemma FirstIncrementExample()
    ensures GetIncrementedPostFixedStr("Box", "x") == "Box2"
  {
    assert !IsDigit('x');
    assert GetNumberEndingWith("Box") == TrailingNumber(-1, 0);
    assert NameStem("Box") == "Box" by { assert "Box"[..3] == "Box"; }
    assert DecimalDigits(2) == "2";
    assert PadStart("2", 0, '0') == "2";
    IncrementedFromParts("Box", "Box", TrailingNumber(-1, 0), "2", "Box2");
  }

  lemma CarryIncrementExample()
    ensures GetNumberEndingWith("Box9") == TrailingNumber(9, 1)
    ensures GetIncrementedPostFixedStr("Box9", "x") == "Box10"
  {
    TrailingNumberExample();
    assert NameStem("Box9") == "Box" by { assert "Box9"[..3] == "Box"; }
    assert DecimalDigits(10) == "10";
    assert PadStart("10", 1, '0') == "10";
    IncrementedFromParts("Box9", "Box", TrailingNumber(9, 1), "10", "Box10");
  }

  /** A name without a trailing number gets "2" appended; "9" rolls over to "10". */
  lemma IncrementedNameExamples()
    ensures GetNumberEndingWith("Box").num == -1
    ensures GetNumberEndingWith("Box9") == TrailingNumber(9, 1)
    ensures GetIncrementedPostFixedStr("Box", "x") == "Box2"
    ensures GetIncrementedPostFixedStr("Box9", "x") == "Box10"
    ensures GetIncrementedPostFixedStr("", "x") == "x"
  {
    NoTrailingNumberExample();
    TrailingNumberExample();
    FirstIncrementExample();
    CarryIncrementExample();
  }

  // ---------------------------------------------------------------------------
  // NextPowerOfTwo (u32)
  // ---------------------------------------------------------------------------

  predicate IsPowerOfTwo32(v: bv32)
  {
    v != 0 && v & (v - 1) == 0
  }

  /** The bit-smearing round-up to a power of two. The source asserts `x != 0`.
      Above 2^31 the final `+ 1` wraps and the result is 0. */
  function NextPowerOfTwo(x: bv32): (r: bv32)
    requires x != 0
    ensures x <= 0x8000_0000 ==> IsPowerOfTwo32(r) && x <= r && r >> 1 < x
    ensures x > 0x8000_0000 ==> r == 0
  {
    var a := x - 1;
    var b := a | (a >> 1);
    var c := b | (b >> 2);
    var d := c | (c >> 4);
    var e := d | (d >> 8);
    var f := e | (e >> 16);
    f + 1
  }

  /** No power of two between `x` and NextPowerOfTwo(x) is skipped: the result is
      the least power of two at or above `x`. */
  lemma NextPowerOfTwoIsLeast(x: bv32, p: bv32)
    requires 0 < x <= 0x8000_0000
    requires IsPowerOfTwo32(p) && x <= p
    ensures NextPowerOfTwo(x) <= p
  {
  }

  // ---------------------------------------------------------------------------
  // Parse16u, Parse32u (little-endian)
  // ---------------------------------------------------------------------------

  /** Reads two bytes, least significant first: byte 0 is the low byte of the
      result and byte 1 the high byte. */
  function Parse16u(ptr: seq<bv8>): (r: bv16)
    requires |ptr| >= 2
    ensures (r & 0xFF) as bv8 == ptr[0] && (r >> 8) as bv8 == ptr[1]
  {
    (ptr[0] as bv16) + ((ptr[1] as bv16) << 8)
  }

  /** Reads four bytes, least significant first: byte `k` of the result is
      `ptr[k]`. The source shifts the last byte into the sign bit of an `int`;
      the value that lands in the `u32` is the one modelled here. */
  function Parse32u(ptr: seq<bv8>): (r: bv32)
    requires |ptr| >= 4
    ensures (r & 0xFF) as bv8 == ptr[0] && ((r >> 8) & 0xFF) as bv8 == ptr[1]
    ensures ((r >> 16) & 0xFF) as bv8 == ptr[2] && (r >> 24) as bv8 == ptr[3]
  {
    (ptr[0] as bv32) + ((ptr[1] as bv32) << 8) + ((ptr[2] as bv32) << 16) + ((ptr[3] as bv32) << 24)
  }

  /** The little-endian bytes of a 16-bit value. */
  function Encode16(v: bv16): (r: seq<bv8>)
    ensures |r| == 2
  {
    [(v & 0xFF) as bv8, (v >> 8) as bv8]
  }

  /** The little-endian bytes of a 32-bit value. */
  function Encode32(v: bv32): (r: seq<bv8>)
    ensures |r| == 4
  {
    [(v & 0xFF) as bv8, ((v >> 8) & 0xFF) as bv8, ((v >> 16) & 0xFF) as bv8, (v >> 24) as bv8]
  }

  /** Parse16u reads back what Encode16 writes, and the other way round. */
  lemma Parse16uRoundTrip(v: bv16, ptr: seq<bv8>)
    ensures Parse16u(Encode16(v)) == v
    ensures |ptr| >= 2 ==> Encode16(Parse16u(ptr)) == ptr[..2]
  {
  }

  /** Parse32u reads back what Encode32 writes, and the other way round. */
  lemma Parse32uRoundTrip(v: bv32, ptr: seq<bv8>)
    ensures Parse32u(Encode32(v)) == v
    ensures |ptr| >= 4 ==> Encode32(Parse32u(ptr)) == ptr[..4]
  {
  }
}
