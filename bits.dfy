/**
 * `to_binary`: a number written as a fixed count of binary digits, unsigned
 * and zero-padded, or in two's complement; and the readers that undo it.
 */
module Bits {
  import opened Outcomes

  function Pow2(k: nat): (p: nat)
    ensures p >= 1
  {
    if k == 0 then 1 else 2 * Pow2(k - 1)
  }

  predicate IsBit(c: char) { c == '0' || c == '1' }

  predicate IsBits(s: string) { forall k :: 0 <= k < |s| ==> IsBit(s[k]) }

  function BitChar(b: nat): char
    requires b < 2
  {
    if b == 0 then '0' else '1'
  }

  function BitValue(c: char): nat { if c == '1' then 1 else 0 }

  /** The shortest binary numeral of n, as `format(n, "b")` writes it ("0" for zero). */
  function Numeral(n: nat): (s: string)
    ensures |s| >= 1 && IsBits(s)
  {
    if n < 2 then [BitChar(n)] else Numeral(n / 2) + [BitChar(n % 2)]
  }

  function Zeros(k: nat): (s: string)
    ensures |s| == k && forall i :: 0 <= i < k ==> s[i] == '0'
  {
    seq(k, _ => '0')
  }

  /**
   * `format(n, "0<width>b")`: the numeral of n, left-padded with zeros to
   * at least `width` characters.
   */
  function Format(n: nat, width: nat): string
  {
    var s := Numeral(n);
    if |s| < width then Zeros(width - |s|) + s else s
  }

  /** The value of a 0/1 string, most significant bit first. */
  function Unsigned(s: string): nat
  {
    if s == [] then 0 else 2 * Unsigned(s[..|s| - 1]) + BitValue(s[|s| - 1])
  }

  /** The value of a 0/1 string read in two's complement: the first bit is the sign. */
  function Signed(s: string): int
  {
    if s != [] && s[0] == '1' then Unsigned(s) - Pow2(|s|) else Unsigned(s)
  }

  function FromBinary(s: string, signed: bool): int
  {
    if signed then Signed(s) else Unsigned(s)
  }

  predicate InUnsignedRange(num: int, digit: nat) { 0 <= num < Pow2(digit) }

  /**
   * The signed check `-(2 ** (digit - 1)) <= num < 2 ** (digit - 1)`. For
   * `digit == 0` Python compares with 0.5, which leaves only 0.
   */
  predicate InSignedRange(num: int, digit: nat)
  {
    if digit == 0 then num == 0 else -(Pow2(digit - 1) as int) <= num < Pow2(digit - 1)
  }

  predicate InRange(num: int, digit: nat, signed: bool)
  {
    if signed then InSignedRange(num, digit) else InUnsignedRange(num, digit)
  }

  /** `num & (2 ** digit - 1)`: Python's `&` on a negative int is the residue modulo 2^digit. */
  function Mask(num: int, digit: nat): (m: nat)
    ensures m < Pow2(digit)
  {
    num % Pow2(digit)
  }

  /**
   * `to_binary(num, digit, signed)`. A value outside the range raises
   * `ValueError(num)`, here `Err(num)`. On success the string has `digit`
   * characters (one for `digit == 0`, as `format` writes at least one digit)
   * and reads back as `num`.
   */
  function ToBinary(num: int, digit: nat, signed: bool): (r: Result<string, int>)
    ensures r.Ok? <==> InRange(num, digit, signed)
    ensures r.Err? ==> r.error == num
    ensures r.Ok? ==> IsBits(r.value) && |r.value| == (if digit == 0 then 1 else digit)
    ensures r.Ok? ==> FromBinary(r.value, signed) == num
  {
    if signed then
      if !InSignedRange(num, digit) then Err(num)
      else
        SignedFormat(num, digit);
        Ok(Format(Mask(num, digit), digit))
    else
      if !InUnsignedRange(num, digit) then Err(num)
      else
        FormatValue(num, digit);
        Ok(Format(num, digit))
  }

  // ---------------------------------------------------------------- lemmas

  lemma {:induction false} UnsignedBound(s: string)
    ensures Unsigned(s) < Pow2(|s|)
  {
    if s != [] {
      UnsignedBound(s[..|s| - 1]);
    }
  }

  lemma {:induction false} UnsignedZeros(k: nat, s: string)
    ensures Unsigned(Zeros(k) + s) == Unsigned(s)
    decreases |s|
  {
    var t := Zeros(k) + s;
    if s == [] {
      assert t == Zeros(k);
      ZerosValue(k);
    } else {
      assert t[..|t| - 1] == Zeros(k) + s[..|s| - 1];
      UnsignedZeros(k, s[..|s| - 1]);
    }
  }

  lemma {:induction false} ZerosValue(k: nat)
    ensures Unsigned(Zeros(k)) == 0
  {
    if k > 0 {
      assert Zeros(k)[..k - 1] == Zeros(k - 1);
      ZerosValue(k - 1);
    }
  }

  lemma {:induction false} NumeralValue(n: nat)
    ensures Unsigned(Numeral(n)) == n
  {
    if n >= 2 {
      var s := Numeral(n);
      assert s[..|s| - 1] == Numeral(n / 2);
      NumeralValue(n / 2);
    }
  }

  lemma {:induction false} NumeralLength(n: nat, d: nat)
    requires d >= 1 && n < Pow2(d)
    ensures |Numeral(n)| <= d
  {
    if n >= 2 {
      NumeralLength(n / 2, d - 1);
    }
  }

  /** What `format(n, "0<d>b")` gives when n fits in d bits. */
  lemma FormatValue(n: nat, d: nat)
    requires n < Pow2(d)
    ensures IsBits(Format(n, d)) && |Format(n, d)| == (if d == 0 then 1 else d)
    ensures Unsigned(Format(n, d)) == n
  {
    NumeralValue(n);
    if d >= 1 {
      NumeralLength(n, d);
      var s := Numeral(n);
      if |s| < d {
        UnsignedZeros(d - |s|, s);
      }
    }
  }

  /** The value of a 0/1 string split after its first bit. */
  lemma {:induction false} UnsignedFront(s: string)
    requires |s| >= 1
    ensures Unsigned(s) == BitValue(s[0]) * Pow2(|s| - 1) + Unsigned(s[1..])
  {
    if |s| > 1 {
      UnsignedFront(s[..|s| - 1]);
      assert s[..|s| - 1][1..] == s[1..][..|s| - 2];
    } else {
      assert s[..0] == [];
    }
  }

  /** In a d-bit string the first bit is 1 exactly when the value is at least 2^(d-1). */
  lemma TopBit(s: string)
    requires IsBits(s) && |s| >= 1
    ensures s[0] == '1' <==> Unsigned(s) >= Pow2(|s| - 1)
  {
    UnsignedFront(s);
    UnsignedBound(s[1..]);
  }

  /** The residue of a negative number no smaller than -p, modulo p. */
  lemma NegativeMod(a: int, p: int)
    requires p > 0 && -p <= a < 0
    ensures a % p == a + p
  {
    assert a == p * (-1) + (a + p);
  }

  lemma SmallMod(a: int, p: int)
    requires 0 <= a < p
    ensures a % p == a
  {
  }

  /** A d-bit string holding the residue of an in-range number reads back as that number. */
  lemma SignedOfMask(s: string, num: int)
    requires IsBits(s) && |s| >= 1 && InSignedRange(num, |s|)
    requires Unsigned(s) == Mask(num, |s|)
    ensures Signed(s) == num
  {
    var d := |s|;
    var p := Pow2(d);
    var half := Pow2(d - 1);
    assert p == 2 * half;
    TopBit(s);
    assert -half <= num < half;
    if num >= 0 {
      SmallMod(num, p);
      assert Unsigned(s) == num;
      assert s[0] != '1';
    } else {
      NegativeMod(num, p);
      assert Unsigned(s) == num + p;
      assert s[0] == '1';
    }
  }

  lemma SignedFormat(num: int, d: nat)
    requires InSignedRange(num, d)
    ensures IsBits(Format(Mask(num, d), d)) && |Format(Mask(num, d), d)| == (if d == 0 then 1 else d)
    ensures Signed(Format(Mask(num, d), d)) == num
  {
    var m := Mask(num, d);
    FormatValue(m, d);
    if d >= 1 {
      SignedOfMask(Format(m, d), num);
    }
  }

  lemma HalveBits(u: nat, b: nat, v: nat, c: nat)
    requires b < 2 && c < 2 && 2 * u + b == 2 * v + c
    ensures u == v && b == c
  {
  }

  /** Two 0/1 strings of one length with one value are the same string. */
  lemma {:induction false} UnsignedInjective(s: string, t: string)
    requires IsBits(s) && IsBits(t) && |s| == |t|
    requires Unsigned(s) == Unsigned(t)
    ensures s == t
  {
    if s != [] {
      var n := |s|;
      var s', t' := s[..n - 1], t[..n - 1];
      assert Unsigned(s) == 2 * Unsigned(s') + BitValue(s[n - 1]);
      assert Unsigned(t) == 2 * Unsigned(t') + BitValue(t[n - 1]);
      HalveBits(Unsigned(s'), BitValue(s[n - 1]), Unsigned(t'), BitValue(t[n - 1]));
      assert IsBit(s[n - 1]) && IsBit(t[n - 1]);
      assert IsBits(s') && IsBits(t');
      UnsignedInjective(s', t');
      assert s == s' + [s[n - 1]];
      assert t == t' + [t[n - 1]];
    }
  }

  /**
   * Decoding then encoding gives the string back: every d-bit string is the
   * output of `to_binary` for exactly one number, in both readings.
   */
  lemma FromBinaryRoundTrip(s: string, signed: bool)
    requires IsBits(s) && |s| >= 1
    ensures ToBinary(FromBinary(s, signed), |s|, signed) == Ok(s)
  {
    var d := |s|;
    var u := Unsigned(s);
    UnsignedBound(s);
    if signed {
      var v := Signed(s);
      var p := Pow2(d);
      var half := Pow2(d - 1);
      assert p == 2 * half;
      TopBit(s);
      if s[0] == '1' {
        NegativeMod(v, p);
      } else {
        SmallMod(v, p);
      }
      assert InSignedRange(v, d) && Mask(v, d) == u;
      FormatValue(u, d);
      UnsignedInjective(Format(u, d), s);
    } else {
      FormatValue(u, d);
      UnsignedInjective(Format(u, d), s);
    }
  }

  /** -1 in eight bits is all ones. */
  lemma MinusOneExample()
    ensures ToBinary(-1, 8, true) == Ok("11111111")
  {
    var s := "11111111";
    assert Unsigned(s) == 255 by {
      assert "11"[..1] == "1";
      assert Unsigned("11") == 3;
      assert "111"[..2] == "11";
      assert Unsigned("111") == 7;
      assert "1111"[..3] == "111";
      assert Unsigned("1111") == 15;
      assert "11111"[..4] == "1111";
      assert Unsigned("11111") == 31;
      assert "111111"[..5] == "11111";
      assert Unsigned("111111") == 63;
      assert "1111111"[..6] == "111111";
      assert Unsigned("1111111") == 127;
      assert "11111111"[..7] == "1111111";
      assert Unsigned("11111111") == 255;
    }
    assert Pow2(8) == 256;
    FromBinaryRoundTrip(s, true);
  }

  /** The bounds of an eight-bit displacement and of a three-bit register field. */
  lemma RangeExamples()
    ensures ToBinary(127, 8, true).Ok? && ToBinary(-128, 8, true).Ok?
    ensures ToBinary(128, 8, true) == Err(128) && ToBinary(-129, 8, true) == Err(-129)
    ensures ToBinary(7, 3, false).Ok? && ToBinary(0, 3, false).Ok?
    ensures ToBinary(8, 3, false) == Err(8) && ToBinary(-1, 3, false) == Err(-1)
  {
    assert Pow2(7) == 128;
    assert Pow2(3) == 8;
  }
}
