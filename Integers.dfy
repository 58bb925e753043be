/** The C# `int` type: its range, unchecked wrap-around, `int.TryParse` in
    the invariant culture and decimal formatting. */
module Integers {
  import opened Wrappers

  const MinInt32: int := -0x8000_0000
  const MaxInt32: int := 0x7FFF_FFFF
  const Modulus32: int := 0x1_0000_0000

  type Int32 = x: int | MinInt32 <= x <= MaxInt32

  /** Unchecked 32-bit two's-complement arithmetic: the `Int32` congruent to
      `v` modulo 2^32. */
  function Wrap32(v: int): (r: Int32)
    ensures MinInt32 <= v <= MaxInt32 ==> r == v
  {
    (v - MinInt32) % Modulus32 + MinInt32
  }

  /** Wrapping changes a value by a multiple of 2^32. */
  lemma WrapDifference(v: int)
    ensures (Wrap32(v) - v) % Modulus32 == 0
  {
    var a := v - MinInt32;
    assert a == (a / Modulus32) * Modulus32 + a % Modulus32;
    assert Wrap32(v) - v == -(a / Modulus32) * Modulus32;
  }

  /** Wrapping depends only on the value modulo 2^32. */
  lemma WrapCongruent(v: int, w: int)
    requires (v - w) % Modulus32 == 0
    ensures Wrap32(v) == Wrap32(w)
  {
    var q := (v - w) / Modulus32;
    assert v - MinInt32 == (w - MinInt32) + q * Modulus32;
    ModShift(w - MinInt32, q);
  }

  lemma ModShift(a: int, q: int)
    ensures (a + q * Modulus32) % Modulus32 == a % Modulus32
  {
    var r := a % Modulus32;
    var d := a / Modulus32;
    assert a == d * Modulus32 + r;
    assert a + q * Modulus32 == (d + q) * Modulus32 + r;
  }

  /** Adding `d` and then subtracting it again, both with wrap-around, gives
      back the original value. */
  lemma WrapAddSub(a: Int32, d: int)
    ensures Wrap32(Wrap32(a + d) - d) == a
  {
    var b := Wrap32(a + d);
    WrapDifference(a + d);
    assert (b - (a + d)) % Modulus32 == 0;
    assert ((b - d) - a) % Modulus32 == 0;
    WrapCongruent(b - d, a);
  }

  /** The characters `int.TryParse` skips around a number
      (`NumberStyles.Integer`): U+0009..U+000D and U+0020. */
  predicate IsNumberWhite(c: char) {
    c == ' ' || ('\t' <= c <= '\r')
  }

  predicate IsDigit(c: char) {
    '0' <= c <= '9'
  }

  predicate AllDigits(s: string) {
    forall i :: 0 <= i < |s| ==> IsDigit(s[i])
  }

  function DigitValue(c: char): nat
    requires IsDigit(c)
  {
    c as int - '0' as int
  }

  /** The value of a string of decimal digits, most significant first. */
  function DigitsValue(s: string): nat
    requires AllDigits(s)
  {
    if s == [] then 0 else DigitsValue(s[..|s| - 1]) * 10 + DigitValue(s[|s| - 1])
  }

  function StripNumberWhite(s: string): (r: string)
    ensures |r| <= |s|
    ensures forall i :: 0 <= i < |s| ==> IsNumberWhite(s[i]) || s[i] in r
    ensures r != [] ==> !IsNumberWhite(r[0]) && !IsNumberWhite(r[|r| - 1])
    ensures (s == [] || (!IsNumberWhite(s[0]) && !IsNumberWhite(s[|s| - 1]))) ==> r == s
  {
    if s == [] then s
    else if IsNumberWhite(s[0]) then
      assert forall i :: 1 <= i < |s| ==> s[i] == s[1..][i - 1];
      StripNumberWhite(s[1..])
    else if IsNumberWhite(s[|s| - 1]) then
      assert forall i :: 0 <= i < |s| - 1 ==> s[i] == s[..|s| - 1][i];
      StripNumberWhite(s[..|s| - 1])
    else s
  }

  /** `int.TryParse(s, out n)` in the invariant culture: optional white space
      around an optional `+` or `-` followed by at least one ASCII digit; the
      value must fit in an `int`. */
  function ParseInt32(s: string): (r: Option<Int32>)
    ensures r.Some? ==>
      forall i :: 0 <= i < |s| ==> IsNumberWhite(s[i]) || IsDigit(s[i]) || s[i] == '-' || s[i] == '+'
  {
    ParseSignedDigits(StripNumberWhite(s))
  }

  /** The number between the white space: one optional sign, then at least
      one digit, in range. */
  function ParseSignedDigits(t: string): (r: Option<Int32>)
    ensures r.Some? ==> forall c :: c in t ==> IsDigit(c) || c == '-' || c == '+'
  {
    if t == [] then None
    else
      var negative := t[0] == '-';
      var digits := if t[0] == '-' || t[0] == '+' then t[1..] else t;
      if digits == [] || !AllDigits(digits) then None
      else
        var v: int := if negative then 0 - DigitsValue(digits) as int else DigitsValue(digits);
        if MinInt32 <= v <= MaxInt32 then
          assert forall c :: c in t ==> c in digits || c == '-' || c == '+';
          Some(v)
        else None
  }

  predicate AllNumberWhite(s: string) {
    forall i :: 0 <= i < |s| ==> IsNumberWhite(s[i])
  }

  /** No sign, a plus sign or a minus sign. */
  predicate IsSign(sign: string) {
    sign == "" || sign == "+" || sign == "-"
  }

  /** The value a sign and a run of digits denote. */
  function SignedValue(sign: string, digits: string): int
    requires AllDigits(digits)
  {
    if sign == "-" then 0 - DigitsValue(digits) as int else DigitsValue(digits)
  }

  /** What `int.TryParse` accepts: white space, an optional sign, at least
      one digit and white space again; the result is the denoted value when
      it fits in an `int` and a failure otherwise. */
  lemma ParseInt32Accepts(lead: string, sign: string, digits: string, trail: string)
    requires AllNumberWhite(lead) && AllNumberWhite(trail) && IsSign(sign)
    requires digits != [] && AllDigits(digits)
    ensures var v := SignedValue(sign, digits);
      ParseInt32(lead + sign + digits + trail) == if MinInt32 <= v <= MaxInt32 then Some(v) else None
  {
    var core := sign + digits;
    assert core[|core| - 1] == digits[|digits| - 1];
    assert core[0] == if sign == "" then digits[0] else sign[0];
    StripAround(lead, core, trail);
    assert lead + sign + digits + trail == lead + core + trail;
    ParseSignDigits(sign, digits);
  }

  /** Only texts of that shape parse: a successful parse splits its input
      into white space, a sign, digits and white space, and returns the
      value they denote. */
  lemma ParseInt32Shape(s: string) returns (lead: string, sign: string, digits: string, trail: string)
    requires ParseInt32(s).Some?
    ensures s == lead + sign + digits + trail
    ensures AllNumberWhite(lead) && AllNumberWhite(trail) && IsSign(sign) && digits != [] && AllDigits(digits)
    ensures ParseInt32(s) == Some(SignedValue(sign, digits))
  {
    var t := StripNumberWhite(s);
    var i := StripNumberWhiteSlice(s);
    lead, trail := s[..i], s[i + |t|..];
    WhiteAroundSplits(s, t, i);
    sign, digits := SignedDigitsShape(t);
    Regroup(lead, sign, digits, trail);
  }

  lemma Regroup(a: string, b: string, c: string, d: string)
    ensures a + (b + c) + d == a + b + c + d
  {
  }

  /** The text between the white space of a successful parse is a sign
      followed by digits, and the parse gives their value. */
  lemma SignedDigitsShape(t: string) returns (sign: string, digits: string)
    requires ParseSignedDigits(t).Some?
    ensures t == sign + digits && IsSign(sign) && digits != [] && AllDigits(digits)
    ensures ParseSignedDigits(t) == Some(SignedValue(sign, digits))
  {
    sign := if t[0] == '-' || t[0] == '+' then t[..1] else "";
    digits := t[|sign|..];
    assert t == sign + digits;
  }

  /** Stripping white space from around a text that neither starts nor ends
      with white space gives that text back. */
  lemma {:induction false} StripAround(lead: string, core: string, trail: string)
    requires AllNumberWhite(lead) && AllNumberWhite(trail)
    requires core != [] && !IsNumberWhite(core[0]) && !IsNumberWhite(core[|core| - 1])
    ensures StripNumberWhite(lead + core + trail) == core
    decreases |lead| + |trail|
  {
    var s := lead + core + trail;
    if lead != [] {
      assert s[0] == lead[0];
      assert s[1..] == lead[1..] + core + trail;
      StripAround(lead[1..], core, trail);
    } else if trail != [] {
      assert s[0] == core[0];
      assert s[|s| - 1] == trail[|trail| - 1];
      assert s[..|s| - 1] == lead + core + trail[..|trail| - 1];
      StripAround(lead, core, trail[..|trail| - 1]);
    } else {
      assert s == core;
    }
  }

  /** `r` sits in `s` at position `i` with only white space around it. */
  predicate WhiteAround(s: string, r: string, i: int) {
    0 <= i <= |s| - |r| && r == s[i..i + |r|] && AllNumberWhite(s[..i]) && AllNumberWhite(s[i + |r|..])
  }

  lemma WhiteAroundSplits(s: string, r: string, i: int)
    requires WhiteAround(s, r, i)
    ensures s == s[..i] + r + s[i + |r|..]
  {
    assert s == s[..i] + s[i..];
    assert s[i..] == s[i..i + |r|] + s[i + |r|..];
  }

  /** The stripped text is a slice of the input with only white space
      around it; the result is where the slice starts. */
  lemma {:induction false} StripNumberWhiteSlice(s: string) returns (i: int)
    ensures WhiteAround(s, StripNumberWhite(s), i)
  {
    if s == [] {
      i := 0;
    } else if IsNumberWhite(s[0]) {
      StripFront(s);
      var j := StripNumberWhiteSlice(s[1..]);
      i := SliceDropFront(s, j, StripNumberWhite(s[1..]));
    } else if IsNumberWhite(s[|s| - 1]) {
      StripBack(s);
      i := StripNumberWhiteSlice(s[..|s| - 1]);
      SliceDropBack(s, i, StripNumberWhite(s[..|s| - 1]));
    } else {
      i := 0;
      assert s[..0] == [] && s[|s|..] == [];
    }
  }

  lemma StripFront(s: string)
    requires s != [] && IsNumberWhite(s[0])
    ensures StripNumberWhite(s) == StripNumberWhite(s[1..])
  {
  }

  lemma StripBack(s: string)
    requires s != [] && !IsNumberWhite(s[0]) && IsNumberWhite(s[|s| - 1])
    ensures StripNumberWhite(s) == StripNumberWhite(s[..|s| - 1])
  {
  }

  lemma SliceDropFront(s: string, j: int, r: string) returns (i: int)
    requires s != [] && IsNumberWhite(s[0]) && WhiteAround(s[1..], r, j)
    ensures WhiteAround(s, r, i)
  {
    i := j + 1;
    assert s[1..][j..j + |r|] == s[i..i + |r|];
    assert s[..i] == [s[0]] + s[1..][..j];
    assert s[i + |r|..] == s[1..][j + |r|..];
  }

  lemma SliceDropBack(s: string, i: int, r: string)
    requires s != [] && IsNumberWhite(s[|s| - 1]) && WhiteAround(s[..|s| - 1], r, i)
    ensures WhiteAround(s, r, i)
  {
    var u := s[..|s| - 1];
    assert u[i..i + |r|] == s[i..i + |r|];
    assert s[..i] == u[..i];
    assert s[i + |r|..] == u[i + |r|..] + [s[|s| - 1]];
  }

  /** One optional sign and then digits: the denoted value when it fits. */
  lemma ParseSignDigits(sign: string, digits: string)
    requires IsSign(sign) && digits != [] && AllDigits(digits)
    ensures var v := SignedValue(sign, digits);
      ParseSignedDigits(sign + digits) == if MinInt32 <= v <= MaxInt32 then Some(v) else None
  {
    var t := sign + digits;
    if sign == "" {
      assert t == digits;
      assert IsDigit(t[0]);
    } else {
      assert t[0] == sign[0];
      assert t[1..] == digits;
    }
  }

  function DigitChar(d: nat): (c: char)
    requires d < 10
    ensures IsDigit(c) && DigitValue(c) == d
  {
    ('0' as int + d) as char
  }

  /** The decimal digits of `n`, without leading zeros. */
  function NatToDecimal(n: nat): (r: string)
    ensures r != [] && AllDigits(r)
  {
    if n < 10 then [DigitChar(n)] else NatToDecimal(n / 10) + [DigitChar(n % 10)]
  }

  /** `n.ToString()` in the invariant culture. */
  function FormatInt(n: int): (r: string)
    ensures r != [] && !IsNumberWhite(r[0]) && !IsNumberWhite(r[|r| - 1])
  {
    if n < 0 then "-" + NatToDecimal(-n) else NatToDecimal(n)
  }

  lemma {:induction false} NatToDecimalValue(n: nat)
    ensures DigitsValue(NatToDecimal(n)) == n
  {
    if n >= 10 {
      var s := NatToDecimal(n);
      NatToDecimalValue(n / 10);
      assert s[..|s| - 1] == NatToDecimal(n / 10);
    }
  }

  /** Every `int` survives printing and parsing back. */
  lemma ParseFormat(n: Int32)
    ensures ParseInt32(FormatInt(n)) == Some(n)
  {
    if n < 0 {
      ParseFormatNegative(n);
    } else {
      ParseFormatNonNegative(n);
    }
  }

  lemma ParseFormatNonNegative(n: Int32)
    requires n >= 0
    ensures ParseInt32(FormatInt(n)) == Some(n)
  {
    var s := NatToDecimal(n);
    assert FormatInt(n) == s;
    assert StripNumberWhite(s) == s;
    assert IsDigit(s[0]);
    NatToDecimalValue(n);
  }

  lemma ParseFormatNegative(n: Int32)
    requires n < 0
    ensures ParseInt32(FormatInt(n)) == Some(n)
  {
    var m: nat := -(n as int);
    var d := NatToDecimal(m);
    NatToDecimalValue(m);
    var s := FormatInt(n);
    assert s == "-" + d;
    assert StripNumberWhite(s) == s;
    ParseMinusDigits(d);
  }

  /** A minus sign followed by digits gives the negated value, when that
      fits. */
  lemma ParseMinusDigits(d: string)
    requires d != [] && AllDigits(d) && DigitsValue(d) <= -MinInt32
    ensures ParseSignedDigits("-" + d) == Some(0 - DigitsValue(d))
  {
    assert ("-" + d)[1..] == d;
  }
}
