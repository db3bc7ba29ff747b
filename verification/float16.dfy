/** The two binary16 encoders, the decoder and the weight blob (linear_weights.go,
    surface_layout_io_darwin.go).

    Words are natural numbers; shifts and masks are divisions and remainders by powers of
    two. Magnitudes are counted in units of 2^-149, the smallest float32, so that every
    finite float32 and binary16 magnitude is a natural number (IEEE 754-2008, section 3.4). */
module Float16 {

  import opened Options

  type Word32 = w: nat | w < 0x1_0000_0000
  type Word16 = w: nat | w < 0x1_0000
  type Byte = b: nat | b < 0x100

  function Pow2(n: nat): (p: nat)
    ensures p > 0
  {
    if n == 0 then 1 else 2 * Pow2(n - 1)
  }

  lemma Double(a: int, b: int)
    ensures a * (2 * b) == 2 * (a * b)
  {
  }

  lemma {:induction false} Pow2Add(a: nat, b: nat)
    ensures Pow2(a + b) == Pow2(a) * Pow2(b)
    decreases b
  {
    if b > 0 {
      Pow2Add(a, b - 1);
      Double(Pow2(a), Pow2(b - 1));
    }
  }

  // ---- the formats -----------------------------------------------------------------------

  function Sign32(b: Word32): nat { b / 0x8000_0000 }
  function Exp32(b: Word32): (e: nat) ensures e < 0x100 { b / 0x80_0000 % 0x100 }
  function Frac32(b: Word32): (f: nat) ensures f < 0x80_0000 { b % 0x80_0000 }

  predicate Finite32(b: Word32) { Exp32(b) < 0xff }
  predicate NaN32(b: Word32) { Exp32(b) == 0xff && Frac32(b) != 0 }

  /** Magnitude of a finite float32. */
  function Value32(b: Word32): nat
    requires Finite32(b)
  {
    if Exp32(b) == 0 then Frac32(b) else (0x80_0000 + Frac32(b)) * Pow2(Exp32(b) - 1)
  }

  /** Binary16 magnitudes in ascending order: bit pattern n below 0x7c00, the infinity
      pattern standing for the first value beyond the range. */
  function Value16(n: nat): nat
    requires n <= 0x7c00
  {
    if n < 0x400 then n * Pow2(125) else (0x400 + n % 0x400) * Pow2(n / 0x400 + 124)
  }

  const INF16: nat := 0x7c00

  lemma {:induction false} Pow2Step(k: nat)
    ensures Pow2(k + 1) == 2 * Pow2(k)
  {
  }

  /** Neighbours are one unit of their exponent apart, also across exponents. */
  lemma Spacing(n: nat)
    requires n < INF16
    ensures Value16(n + 1) == Value16(n) + if n < 0x400 then Pow2(125) else Pow2(n / 0x400 + 124)
  {
    hide Pow2;
    if n < 0x3ff {
    } else if n == 0x3ff {
      Distribute(0x3ff, 1, Pow2(125));
    } else if n % 0x400 == 0x3ff {
      var k := n / 0x400;
      assert n + 1 == (k + 1) * 0x400;
      Pow2Step(k + 124);
    } else {
      var k := n / 0x400;
      assert (n + 1) / 0x400 == k && (n + 1) % 0x400 == n % 0x400 + 1;
      Distribute(0x400 + n % 0x400, 1, Pow2(k + 124));
    }
  }

  lemma Distribute(a: int, b: int, p: int)
    ensures (a + b) * p == a * p + b * p
  {
  }

  lemma {:induction false} Ascending(m: nat, n: nat)
    requires m < n <= INF16
    ensures Value16(m) < Value16(n)
    decreases n
  {
    Spacing(n - 1);
    if m < n - 1 {
      Ascending(m, n - 1);
    }
  }

  lemma Ordered(m: nat, n: nat)
    requires m <= INF16 && n <= INF16
    ensures m <= n <==> Value16(m) <= Value16(n)
  {
    if m < n {
      Ascending(m, n);
    } else if n < m {
      Ascending(n, m);
    }
  }

  // ---- what rounding means ---------------------------------------------------------------

  /** v lies in the half-open interval of the values nearest to n: from the midpoint below,
      which belongs to n, to the midpoint above. */
  predicate RoundsTo(v: nat, n: nat)
    requires n <= INF16
  {
    (n > 0 ==> Value16(n - 1) + Value16(n) <= 2 * v) && (n < INF16 ==> 2 * v < Value16(n) + Value16(n + 1))
  }

  function Distance(a: nat, b: nat): nat {
    if a < b then b - a else a - b
  }

  /** That is round to nearest with ties away from zero (IEEE 754-2008, section 4.3.1):
      no binary16 value is nearer, and of two equally near ones it is the larger. */
  lemma RoundsToIsNearest(v: nat, n: nat, g: nat)
    requires n <= INF16 && g <= INF16 && RoundsTo(v, n)
    ensures Distance(v, Value16(n)) <= Distance(v, Value16(g))
    ensures g != n && Distance(v, Value16(n)) == Distance(v, Value16(g)) ==> g < n
  {
    if g < n {
      Ascending(n - 1, n);
      if g < n - 1 {
        Ascending(g, n - 1);
      }
    } else if g > n {
      Ascending(n, n + 1);
      if n + 1 < g {
        Ascending(n + 1, g);
      }
    }
  }

  /** Every magnitude is rounded to one pattern. */
  lemma RoundsToOne(v: nat, m: nat, n: nat)
    requires m <= INF16 && n <= INF16 && RoundsTo(v, m) && RoundsTo(v, n)
    ensures m == n
  {
    RoundsToIsNearest(v, m, n);
    RoundsToIsNearest(v, n, m);
  }

  /** Infinity is reached at 65520 and not before. */
  lemma OverflowBound(v: nat)
    ensures RoundsTo(v, INF16) <==> v >= 65520 * Pow2(149)
  {
    hide Pow2;
    assert Value16(INF16) == 0x400 * Pow2(155) && Value16(INF16 - 1) == 0x7ff * Pow2(154);
    Pow2Add(149, 5);
    Pow2Step(154);
    Pow2Values();
  }

  // ---- the encoder of the weight blob ----------------------------------------------------

  function Float32ToFloat16Bits(bits: Word32): Word16 {
    var sign := Sign32(bits) * 0x8000;
    var frac := Frac32(bits);
    if Exp32(bits) == 0xff then (if frac != 0 then sign + 0x7e00 else sign + 0x7c00)
    else if Exp32(bits) == 0 then sign
    else
      var exp := Exp32(bits) - 127 + 15;
      if exp >= 0x1f then sign + 0x7c00
      else if exp <= 0 then (if exp < -10 then sign else sign + Subnormal(frac + 0x80_0000, 14 - exp))
      else
        var rounded := frac + 0x1000;
        if rounded >= 0x80_0000 then (if exp + 1 >= 0x1f then sign + 0x7c00 else sign + (exp + 1) * 0x400)
        else sign + exp * 0x400 + rounded / 0x2000
  }

  /** A significand shifted right with its last lost bit rounded up. */
  function Subnormal(m: nat, shift: nat): (r: nat)
    requires 0x80_0000 <= m < 0x100_0000 && 14 <= shift <= 24
    ensures r <= 0x400
  {
    SubnormalBound(m, shift);
    (m + Pow2(shift - 1)) / Pow2(shift)
  }

  lemma SubnormalBound(m: nat, shift: nat)
    requires m < 0x100_0000 && 14 <= shift
    ensures 0 <= (m + Pow2(shift - 1)) / Pow2(shift) <= 0x400
  {
    hide Pow2;
    Pow2Values();
    Pow2AtLeast(shift, 14);
    Pow2Step(shift - 1);
    QuotientAtMost(m + Pow2(shift - 1), Pow2(shift), 0x400);
  }

  lemma QuotientAtMost(a: nat, b: nat, c: nat)
    requires b > 0 && a < c * b + b
    ensures a / b <= c
  {
    Quotient(a, b);
    if a / b > c {
      Scale(c + 1, a / b, b);
      Distribute(c, 1, b);
    }
  }

  lemma Pow2Values()
    ensures Pow2(5) == 32 && Pow2(10) == 0x400 && Pow2(13) == 0x2000 && Pow2(14) == 0x4000 && Pow2(23) == 0x80_0000
      && Pow2(24) == 0x100_0000
  {
    assert Pow2(5) == 32 && Pow2(10) == 0x400;
    assert Pow2(13) == 0x2000 && Pow2(14) == 0x4000;
    Pow2Add(13, 10);
    Pow2Add(14, 10);
  }

  lemma Quotient(a: nat, b: nat)
    requires b > 0
    ensures (a / b) * b <= a < (a / b + 1) * b
  {
  }

  lemma Scale(a: int, b: int, k: nat)
    requires a <= b && k > 0
    ensures a * k <= b * k && (a < b ==> a * k < b * k)
  {
  }

  /** The encoder keeps the sign, NaN stays NaN, and every other magnitude is rounded to
      nearest, ties away from zero; infinity behaves like a value beyond the range. */
  lemma EncodesToNearest(bits: Word32)
    ensures Float32ToFloat16Bits(bits) / 0x8000 == Sign32(bits)
    ensures Float32ToFloat16Bits(bits) % 0x8000 > INF16 <==> NaN32(bits)
    ensures Finite32(bits) ==> RoundsTo(Value32(bits), Float32ToFloat16Bits(bits) % 0x8000)
    ensures Exp32(bits) == 0xff && Frac32(bits) == 0 ==> Float32ToFloat16Bits(bits) % 0x8000 == INF16
  {
    hide Pow2, Value16, Value32, RoundsTo, Subnormal;
    var e := Exp32(bits);
    if e == 0xff {
    } else if e < 102 {
      TinyRoundsToZero(bits);
    } else if e < 113 {
      Significand(bits);
      SubnormalRounds(0x80_0000 + Frac32(bits), e);
    } else if e < 143 {
      Significand(bits);
      NormalRounds(Frac32(bits), e);
    } else {
      HugeRoundsToInfinity(bits);
    }
  }

  lemma Significand(bits: Word32)
    requires 0 < Exp32(bits) < 0xff
    ensures Value32(bits) == (0x80_0000 + Frac32(bits)) * Pow2(Exp32(bits) - 1)
  {
    hide Pow2;
  }

  lemma TinyRoundsToZero(bits: Word32)
    requires Exp32(bits) < 102
    ensures RoundsTo(Value32(bits), 0)
  {
    hide Pow2;
    Pow2Add(24, 101);
    Pow2Values();
    if Exp32(bits) == 0 {
      Pow2AtLeast(101, 0);
    } else {
      var k := Exp32(bits) - 1;
      Scale(2 * (0x80_0000 + Frac32(bits)), 2 * 0x100_0000, Pow2(k));
      Pow2Step(k);
      Pow2AtLeast(101, k + 1);
      Scale(Pow2(k + 1), Pow2(101), 0x100_0000);
    }
  }

  lemma {:induction false} Pow2AtLeast(a: nat, b: nat)
    requires b <= a
    ensures Pow2(a) >= Pow2(b)
    decreases a
  {
    if b < a {
      Pow2AtLeast(a - 1, b);
    }
  }

  lemma HugeRoundsToInfinity(bits: Word32)
    requires 143 <= Exp32(bits) < 0xff
    ensures RoundsTo(Value32(bits), INF16)
  {
    hide Pow2;
    Pow2Values();
    var k := Exp32(bits) - 1;
    assert Value16(INF16) == 0x400 * Pow2(155);
    Ascending(INF16 - 1, INF16);
    Pow2Add(142, 13);
    Pow2AtLeast(k, 142);
    Scale(Pow2(142), Pow2(k), 0x80_0000);
    Scale(0x80_0000, 0x80_0000 + Frac32(bits), Pow2(k));
  }

  /** Half a unit to either side, scaled. */
  lemma Midpoints(m: nat, n: nat, S: nat, K: nat, U: nat)
    requires K > 0 && U == S * K && 2 * (n * S) <= 2 * m + S < 2 * (n * S) + 2 * S
    ensures 2 * (n * U) - U <= 2 * (m * K) < 2 * (n * U) + U
  {
    var t := n * S;
    Reassociate(n, S, K);
    assert n * U == t * K;
    Scale(2 * t - S, 2 * m, K);
    Scale(2 * m, 2 * t + S, K);
    Linear(t, S, K);
    assert 2 * m * K == 2 * (m * K);
  }

  lemma Linear(t: int, s: int, k: int)
    ensures (2 * t - s) * k == 2 * (t * k) - s * k && (2 * t + s) * k == 2 * (t * k) + s * k
  {
    assert (2 * t) * k == 2 * (t * k);
    Distribute(2 * t, s, k);
    Distribute(2 * t, -s, k);
    assert (-s) * k == -(s * k);
  }

  lemma SubnormalRounds(m: nat, e: nat)
    requires 0x80_0000 <= m < 0x100_0000 && 102 <= e < 113
    ensures RoundsTo(m * Pow2(e - 1), Subnormal(m, 126 - e))
  {
    hide Pow2, Subnormal, Value16;
    var n, S := Subnormal(m, 126 - e), Pow2(126 - e);
    SubnormalQuotient(m, 126 - e);
    Pow2Add(126 - e, e - 1);
    Midpoints(m, n, S, Pow2(e - 1), Pow2(125));
    LowValues(n);
    Spacing(n);
    if n > 0 {
      Spacing(n - 1);
    }
  }

  lemma SubnormalQuotient(m: nat, shift: nat)
    requires 0x80_0000 <= m < 0x100_0000 && 14 <= shift <= 24
    ensures var n, S := Subnormal(m, shift), Pow2(shift);
      2 * (n * S) <= 2 * m + S < 2 * (n * S) + 2 * S
  {
    hide Pow2;
    var half := Pow2(shift - 1);
    Pow2Step(shift - 1);
    RoundedQuotient(m, half);
  }

  lemma RoundedQuotient(m: nat, half: nat)
    requires half > 0
    ensures var S := 2 * half;
      var n := (m + half) / S;
      2 * (n * S) <= 2 * m + S < 2 * (n * S) + 2 * S
  {
    var S := 2 * half;
    var n := (m + half) / S;
    Quotient(m + half, S);
    Distribute(n, 1, S);
  }

  lemma Reassociate(a: int, s: nat, k: nat)
    ensures a * s * k == a * (k * s)
  {
  }

  lemma LowValues(n: nat)
    requires n <= 0x401
    ensures Value16(n) == n * Pow2(125)
  {
  }

  /** Index of q / 0x400 * 2^exp among the values, for q up to 0x800. */
  lemma NormalValue(exp: nat, q: nat)
    requires 1 <= exp <= 30 && 0x400 <= q <= 0x800
    ensures exp * 0x400 + q - 0x400 <= INF16
    ensures Value16(exp * 0x400 + q - 0x400) == q * Pow2(exp + 124)
  {
    hide Pow2;
    var n := exp * 0x400 + q - 0x400;
    if q < 0x800 {
      assert n / 0x400 == exp && n % 0x400 == q - 0x400;
    } else {
      assert n == (exp + 1) * 0x400;
      Pow2Step(exp + 124);
      assert 0x400 * (2 * Pow2(exp + 124)) == 0x800 * Pow2(exp + 124);
    }
  }

  lemma NormalRounds(frac: nat, e: nat)
    requires frac < 0x80_0000 && 113 <= e < 143
    ensures var q := (0x80_0000 + frac + 0x1000) / 0x2000;
      (e - 112) * 0x400 + q - 0x400 <= INF16
      && RoundsTo((0x80_0000 + frac) * Pow2(e - 1), (e - 112) * 0x400 + q - 0x400)
  {
    hide Pow2, Value16;
    var m, exp, K := 0x80_0000 + frac, e - 112, Pow2(e - 1);
    var q := (m + 0x1000) / 0x2000;
    var n, U := exp * 0x400 + q - 0x400, Pow2(exp + 124);
    assert U == 0x2000 * K by {
      Pow2Add(e - 1, 13);
      Pow2Values();
    }
    NormalValue(exp, q);
    Midpoints(m, q, 0x2000, K, U);
    Spacing(n - 1);
    if q == 0x400 {
      Reassociate(q, 0x2000, K);
      Scale(q * 0x2000, m, K);
    }
    if n < INF16 {
      Spacing(n);
      Pow2AtLeast(n / 0x400 + 124, exp + 124);
    }
  }

  // ---- the encoder of the surfaces -------------------------------------------------------

  function Float32ToFP16(bits: Word32): Word16 {
    var sign := Sign32(bits) * 0x8000;
    var exp := Exp32(bits) - 127 + 15;
    if exp <= 0 then sign
    else if exp >= 31 then sign + 0x7c00
    else sign + exp * 0x400 + Frac32(bits) / 0x2000
  }

  /** What this encoder does to a magnitude: below the smallest normal value, 2^-14, it
      gives zero, within the range it drops what does not fit, beyond it gives infinity. */
  predicate TruncatesTo(v: nat, n: nat)
    requires n <= INF16
  {
    if v < Value16(0x400) then n == 0
    else if v < Value16(INF16) then 0x400 <= n < INF16 && Value16(n) <= v < Value16(n + 1)
    else n == INF16
  }

  lemma BinadeOf(bits: Word32)
    requires Finite32(bits)
    ensures Value32(bits) < Value16(0x400) <==> Exp32(bits) < 113
    ensures Value32(bits) < Value16(INF16) <==> Exp32(bits) < 143
  {
    hide Pow2;
    var e := Exp32(bits);
    Pow2Values();
    assert Value16(0x400) == 0x400 * Pow2(125) && Value16(INF16) == 0x400 * Pow2(155);
    Pow2Add(112, 13);
    Pow2Add(142, 13);
    Pow2AtLeast(142, 112);
    if e == 0 {
      Pow2AtLeast(112, 0);
    } else {
      Scale(0x80_0000, 0x80_0000 + Frac32(bits), Pow2(e - 1));
      Scale(0x80_0000 + Frac32(bits), 0x100_0000, Pow2(e - 1));
      Pow2Step(e - 1);
      Brackets(e, 113);
      Brackets(e, 143);
    }
  }

  lemma Brackets(e: nat, b: nat)
    requires e > 0 && b > 0
    ensures if e < b then Pow2(e) <= Pow2(b - 1) else Pow2(e - 1) >= Pow2(b - 1)
  {
    if e < b {
      Pow2AtLeast(b - 1, e);
    } else {
      Pow2AtLeast(e - 1, b - 1);
    }
  }

  /** The surface encoder truncates towards zero; NaN comes out as infinity. */
  lemma EncodesByTruncation(bits: Word32)
    ensures Float32ToFP16(bits) / 0x8000 == Sign32(bits)
    ensures !Finite32(bits) ==> Float32ToFP16(bits) % 0x8000 == INF16
    ensures Finite32(bits) ==> TruncatesTo(Value32(bits), Float32ToFP16(bits) % 0x8000)
  {
    hide Pow2, Value16;
    var e := Exp32(bits);
    if Finite32(bits) {
      BinadeOf(bits);
      if 113 <= e < 143 {
        TruncatesInBinade(Frac32(bits), e);
      }
    }
  }

  lemma TruncatesInBinade(frac: nat, e: nat)
    requires frac < 0x80_0000 && 113 <= e < 143
    ensures var n := (e - 112) * 0x400 + frac / 0x2000;
      0x400 <= n < INF16 && Value16(n) <= (0x80_0000 + frac) * Pow2(e - 1) < Value16(n + 1)
  {
    hide Pow2, Value16;
    var m, exp, K := 0x80_0000 + frac, e - 112, Pow2(e - 1);
    var q := m / 0x2000;
    var n := exp * 0x400 + q - 0x400;
    assert n == exp * 0x400 + frac / 0x2000;
    NormalValue(exp, q);
    NormalValue(exp, q + 1);
    Pow2Add(e - 1, 13);
    Pow2Values();
    Reassociate(q, 0x2000, K);
    Reassociate(q + 1, 0x2000, K);
    Scale(q * 0x2000, m, K);
    Scale(m, (q + 1) * 0x2000, K);
  }

  // ---- the decoder -----------------------------------------------------------------------

  /** b is the float32 of the same sign and value as h, or of the same special kind. */
  predicate Decodes(h: Word16, b: Word32) {
    var n := h % 0x8000;
    Sign32(b) == h / 0x8000
    && (n < INF16 ==> Finite32(b) && Value32(b) == Value16(n))
    && (n >= INF16 ==> Exp32(b) == 0xff && Frac32(b) == (n - INF16) * 0x2000)
  }

  function Word(sign: nat, e: nat, f: nat): (b: Word32)
    requires sign < 2 && e < 0x100 && f < 0x80_0000
    ensures Sign32(b) == sign && Exp32(b) == e && Frac32(b) == f
  {
    sign * 0x8000_0000 + e * 0x80_0000 + f
  }

  /** Shifts the fraction of a subnormal value up to its leading bit. The exponent is an
      unsigned word that wraps below zero on the way and comes back with the bias. */
  method Normalize(frac0: nat) returns (e: nat, frac: nat)
    requires 0 < frac0 < 0x400
    ensures 0x400 <= frac < 0x800 && 103 <= e <= 113
    ensures (0x80_0000 + (frac - 0x400) * 0x2000) * Pow2(e - 1) == frac0 * Pow2(125)
  {
    hide Pow2;
    var exp: Word32 := 0;
    ghost var j := 0;
    frac := frac0;
    Pow2Zero();
    while frac < 0x400
      invariant j <= 10 && exp == (if j == 0 then 0 else 0x1_0000_0000 - j)
      invariant frac == frac0 * Pow2(j) && Pow2(j) <= frac < 0x800
      decreases 0x800 - frac
    {
      SmallShift(j, frac);
      Pow2Step(j);
      Double(frac0, Pow2(j));
      frac := frac * 2;
      exp := if exp == 0 then 0xffff_ffff else exp - 1;
      j := j + 1;
    }
    exp := if exp == 0xffff_ffff then 0 else exp + 1;
    var biased := exp + 127 - 15;
    e := if biased >= 0x1_0000_0000 then biased - 0x1_0000_0000 else biased;
    SubnormalDecodes(frac0, j, frac);
  }

  function Exp16(h: Word16): (e: nat) ensures e < 0x20 { h / 0x400 % 0x20 }
  function Frac16(h: Word16): (f: nat) ensures f < 0x400 { h % 0x400 }

  lemma Fields16(h: Word16)
    ensures var n := h % 0x8000;
      n / 0x400 == Exp16(h) && n % 0x400 == Frac16(h) && n == Exp16(h) * 0x400 + Frac16(h) && h / 0x8000 < 2
  {
    assert h == (h / 0x8000) * 0x8000 + h % 0x8000;
    assert h / 0x400 == (h / 0x8000) * 0x20 + (h % 0x8000) / 0x400;
  }

  lemma WordIs(sign: nat)
    requires sign < 2
    ensures forall e: nat, f: nat :: e < 0x100 && f < 0x80_0000 ==>
      Word(sign, e, f) == sign * 0x8000_0000 + e * 0x80_0000 + f
    ensures forall h: Word16 :: Exp16(h) == h / 0x400 % 0x20 && Frac16(h) == h % 0x400
  {
  }

  /** Every binary16 value is decoded exactly. */
  method Fp16ToFloat32(h: Word16) returns (b: Word32)
    ensures Decodes(h, b)
    // by the fields: sign, five bits of exponent, ten of fraction
    ensures var sign, exp, frac := h / 0x8000, h / 0x400 % 0x20, h % 0x400;
      && (0 < exp < 31 ==> b == sign * 0x8000_0000 + (exp + 112) * 0x80_0000 + frac * 0x2000)
      && (exp == 31 ==> b == sign * 0x8000_0000 + 0xff * 0x80_0000 + frac * 0x2000)
      && (exp == 0 && frac == 0 ==> b == sign * 0x8000_0000)
      && (exp == 0 && frac > 0 ==> Finite32(b) && Value32(b) == frac * Pow2(125))
  {
    hide Pow2, Sign32, Exp32, Frac32, Word, Exp16, Frac16;
    var sign, exp, frac := h / 0x8000, Exp16(h), Frac16(h);
    Fields16(h);
    WordIs(sign);
    if exp == 0 {
      if frac == 0 {
        return Word(sign, 0, 0);
      }
      var e, m := Normalize(frac);
      b := Word(sign, e, (m - 0x400) * 0x2000);
    } else if exp < 31 {
      b := Word(sign, exp + 127 - 15, frac * 0x2000);
      NormalDecodes(exp, frac);
    } else {
      b := Word(sign, 0xff, frac * 0x2000);
    }
  }

  lemma Pow2Zero()
    ensures Pow2(0) == 1
  {
  }

  lemma SmallShift(j: nat, frac: nat)
    requires j <= 10 && Pow2(j) <= frac < 0x400
    ensures j < 10
  {
    hide Pow2;
    Pow2Values();
    if j == 10 {
      assert false;
    }
  }

  lemma SubnormalDecodes(frac0: nat, j: nat, frac: nat)
    requires j <= 10 && frac == frac0 * Pow2(j) && 0x400 <= frac < 0x800
    ensures (0x80_0000 + (frac - 0x400) * 0x2000) * Pow2(112 - j) == frac0 * Pow2(125)
  {
    hide Pow2;
    Pow2Add(112 - j, 13);
    Pow2Add(j, 125 - j);
    Pow2Values();
    assert 0x80_0000 + (frac - 0x400) * 0x2000 == frac * 0x2000;
    Reassociate(frac, 0x2000, Pow2(112 - j));
    Reassociate(frac0, Pow2(j), Pow2(125 - j));
    assert Pow2(125 - j) == Pow2(112 - j) * 0x2000;
  }

  lemma NormalDecodes(exp: nat, frac: nat)
    requires 0 < exp < 31 && frac < 0x400
    ensures (0x80_0000 + frac * 0x2000) * Pow2(exp + 111) == (0x400 + frac) * Pow2(exp + 124)
  {
    hide Pow2;
    Pow2Add(exp + 111, 13);
    Pow2Values();
    assert 0x80_0000 + frac * 0x2000 == (0x400 + frac) * 0x2000;
    Reassociate(0x400 + frac, 0x2000, Pow2(exp + 111));
  }

  /** How often a subnormal fraction is doubled. */
  ghost function Shifts(frac: nat): (j: nat)
    requires 0 < frac < 0x400
    ensures 0 < j <= 10 && 0x400 <= frac * Pow2(j) < 0x800
    decreases 0x400 - frac
  {
    if frac >= 0x200 then
      Pow2Zero();
      Pow2Step(0);
      1
    else
      var j := Shifts(2 * frac);
      Pow2Step(j);
      Double(frac, Pow2(j));
      Reassociate(frac, 2, Pow2(j));
      FewShifts(frac, j + 1);
      j + 1
  }

  lemma FewShifts(frac: nat, j: nat)
    requires 0 < frac && frac * Pow2(j) < 0x800
    ensures j <= 10
  {
    hide Pow2;
    Scale(1, frac, Pow2(j));
    Pow2Values();
    Pow2Step(10);
    if j > 10 {
      Pow2AtLeast(j, 11);
    }
  }

  /** The float32 that a binary16 pattern decodes to. */
  ghost function Widen(h: Word16): (b: Word32)
    ensures Decodes(h, b)
  {
    hide Pow2, Sign32, Exp32, Frac32, Word, Exp16, Frac16;
    Fields16(h);
    var sign, exp, frac := h / 0x8000, Exp16(h), Frac16(h);
    if exp == 31 then Word(sign, 0xff, frac * 0x2000)
    else if exp > 0 then
      NormalDecodes(exp, frac);
      Word(sign, exp + 112, frac * 0x2000)
    else if frac == 0 then Word(sign, 0, 0)
    else
      var j := Shifts(frac);
      SubnormalDecodes(frac, j, frac * Pow2(j));
      Word(sign, 113 - j, (frac * Pow2(j) - 0x400) * 0x2000)
  }

  // ---- round trips -----------------------------------------------------------------------

  /** A decoded value that is not NaN encodes to the same pattern for the weight blob. */
  lemma BlobRoundTrip(h: Word16, b: Word32)
    requires Decodes(h, b)
    ensures Float32ToFloat16Bits(b) == h <==> h % 0x8000 <= INF16 || h % 0x8000 == 0x7e00
  {
    hide Pow2, Value16, Value32;
    var n := h % 0x8000;
    EncodesToNearest(b);
    if n < INF16 {
      Ascending(n, n + 1);
      if n > 0 {
        Ascending(n - 1, n);
      }
      RoundsToOne(Value16(n), n, Float32ToFloat16Bits(b) % 0x8000);
    }
  }

  /** On the surface it does exactly when it is zero, normal or infinite: subnormal values
      are lost and NaN turns into infinity. */
  lemma SurfaceRoundTrip(h: Word16, b: Word32)
    requires Decodes(h, b)
    ensures Float32ToFP16(b) == h <==> h % 0x8000 == 0 || 0x400 <= h % 0x8000 <= INF16
  {
    hide Pow2, Value16, Value32;
    var n, r := h % 0x8000, Float32ToFP16(b) % 0x8000;
    EncodesByTruncation(b);
    if n < INF16 {
      Ascending(n, INF16);
      if n < 0x400 {
        Ascending(n, 0x400);
      } else {
        if n > 0x400 {
          Ascending(0x400, n);
        }
        if r < n && r + 1 < n {
          Ascending(r + 1, n);
        }
        if n < r {
          Ascending(n, r);
        }
      }
    }
  }

  /** Both, for every pattern. */
  lemma RoundTrips(h: Word16)
    ensures Float32ToFloat16Bits(Widen(h)) == h <==> h % 0x8000 <= INF16 || h % 0x8000 == 0x7e00
    ensures Float32ToFP16(Widen(h)) == h <==> h % 0x8000 == 0 || 0x400 <= h % 0x8000 <= INF16
  {
    hide Widen, Decodes, Float32ToFloat16Bits, Float32ToFP16;
    BlobRoundTrip(h, Widen(h));
    SurfaceRoundTrip(h, Widen(h));
  }

  /** The codecs differ: just below the bound one saturates and the other does not. */
  lemma CodecsDisagree(bits: Word32)
    requires Finite32(bits) && 65520 * Pow2(149) <= Value32(bits) < 65536 * Pow2(149)
    ensures Float32ToFloat16Bits(bits) % 0x8000 == INF16 && Float32ToFP16(bits) % 0x8000 == INF16 - 1
  {
    hide Pow2;
    EncodesToNearest(bits);
    OverflowBound(Value32(bits));
    RoundsToOne(Value32(bits), INF16, Float32ToFloat16Bits(bits) % 0x8000);
    EncodesByTruncation(bits);
    var n := Float32ToFP16(bits) % 0x8000;
    assert Value16(INF16) == 0x400 * Pow2(155) && Value16(INF16 - 1) == 0x7ff * Pow2(154);
    Pow2Add(149, 5);
    Pow2Step(154);
    Pow2Values();
    Ascending(0x400, INF16 - 1);
    Ordered(n + 1, INF16 - 1);
  }

  // ---- the weight blob -------------------------------------------------------------------

  const DATA_OFFSET: nat := 128

  function Le16(a: seq<Byte>, i: nat): nat
    requires i + 2 <= |a|
  {
    Join(a[i], a[i + 1])
  }

  function Join(low: nat, high: nat): nat {
    low + 0x100 * high
  }

  function Le32(a: seq<Byte>, i: nat): nat
    requires i + 4 <= |a|
  {
    Le16(a, i) + 0x1_0000 * Le16(a, i + 2)
  }

  lemma Halves(v: Word32)
    ensures v == v % 0x1_0000 + 0x1_0000 * (v / 0x1_0000) && v / 0x1_0000 < 0x1_0000
    ensures v % 0x1_0000 == v % 0x100 + 0x100 * (v / 0x100 % 0x100)
  {
    assert v == 0x100 * (v / 0x100) + v % 0x100;
    assert v / 0x100 == 0x100 * (v / 0x1_0000) + v / 0x100 % 0x100;
  }

  method PutUint16(a: array<Byte>, i: nat, v: Word16)
    requires i + 2 <= a.Length
    modifies a
    ensures Le16(a[..], i) == v
    ensures forall k :: 0 <= k < a.Length && !(i <= k < i + 2) ==> a[k] == old(a[k])
  {
    a[i], a[i + 1] := v % 0x100, v / 0x100;
  }

  method PutUint32(a: array<Byte>, i: nat, v: Word32)
    requires i + 4 <= a.Length
    modifies a
    ensures Le32(a[..], i) == v
    ensures forall k :: 0 <= k < a.Length && !(i <= k < i + 4) ==> a[k] == old(a[k])
  {
    Halves(v);
    PutUint16(a, i, v % 0x1_0000);
    ghost var low := a[..];
    PutUint16(a, i + 2, v / 0x1_0000);
    assert Le16(a[..], i) == Le16(low, i);
  }

  /** File header and chunk header, with the payload size as a 32-bit word. */
  ghost predicate IsHeader(a: seq<Byte>, wsize: nat) {
    |a| >= DATA_OFFSET
    && (forall k :: 0 <= k < 64 ==> a[k] == if k == 0 then 1 else if k == 4 then 2 else 0)
    && a[64] == 0xEF && a[65] == 0xBE && a[66] == 0xAD && a[67] == 0xDE && a[68] == 1
    && Le32(a, 72) == wsize % 0x1_0000_0000 && Le32(a, 80) == DATA_OFFSET
    && (forall k :: 69 <= k < 72 || 76 <= k < 80 || 84 <= k < DATA_OFFSET ==> a[k] == 0)
  }

  /** The headers and the payload, encoded element by element. */
  ghost predicate IsBlob(a: seq<Byte>, payload: seq<Word32>) {
    |a| == DATA_OFFSET + 2 * |payload| && IsHeader(a, 2 * |payload|)
    && (forall i :: 0 <= i < |payload| ==> Le16(a, DATA_OFFSET + 2 * i) == Float32ToFloat16Bits(payload[i]))
  }

  lemma HeaderBytes(a: seq<Byte>, wsize: nat)
    requires IsHeader(a, wsize)
    ensures a[0] == 1 && a[4] == 2 && a[80] == 128
    ensures a[64] == 0xEF && a[65] == 0xBE && a[66] == 0xAD && a[67] == 0xDE && a[68] == 1
    ensures a[72] + 0x100 * (a[73] as int) + 0x1_0000 * (a[74] as int) + 0x100_0000 * (a[75] as int)
      == wsize % 0x1_0000_0000
    ensures forall k :: 0 <= k < 128 && a[k] != 0 ==> k == 0 || k == 4 || 64 <= k < 69 || 72 <= k < 76 || k == 80
  {
    var n := wsize % 0x1_0000_0000;
    assert a[72] + 0x100 * (a[73] as int) + 0x1_0000 * (a[74] as int) + 0x100_0000 * (a[75] as int) == n;
    assert a[80] + 0x100 * (a[81] as int) + 0x1_0000 * (a[82] as int) + 0x100_0000 * (a[83] as int) == DATA_OFFSET;
    assert a[81] == 0 && a[82] == 0 && a[83] == 0;
  }

  /** Byte by byte. */
  lemma BlobBytes(a: seq<Byte>, payload: seq<Word32>)
    requires IsBlob(a, payload)
    ensures |a| == 128 + 2 * |payload| && a[0] == 1 && a[4] == 2 && a[80] == 128
    ensures a[64] == 0xEF && a[65] == 0xBE && a[66] == 0xAD && a[67] == 0xDE && a[68] == 1
    ensures a[72] + 0x100 * (a[73] as int) + 0x1_0000 * (a[74] as int) + 0x100_0000 * (a[75] as int)
      == 2 * |payload| % 0x1_0000_0000
    ensures forall k :: 0 <= k < 128 && a[k] != 0 ==> k == 0 || k == 4 || 64 <= k < 69 || 72 <= k < 76 || k == 80
    ensures forall i :: 0 <= i < |payload| ==>
      a[128 + 2 * i] + 0x100 * (a[129 + 2 * i] as int) == Float32ToFloat16Bits(payload[i])
  {
    hide Float32ToFloat16Bits, IsHeader;
    HeaderBytes(a, 2 * |payload|);
    forall i | 0 <= i < |payload|
      ensures a[128 + 2 * i] + 0x100 * (a[129 + 2 * i] as int) == Float32ToFloat16Bits(payload[i])
    {
      assert Le16(a, DATA_OFFSET + 2 * i) == Float32ToFloat16Bits(payload[i]);
    }
  }

  method BuildBLOBFileFP16(payload: seq<Word32>) returns (blob: array<Byte>)
    ensures fresh(blob) && IsBlob(blob[..], payload)
  {
    hide Float32ToFloat16Bits, IsHeader, Join;
    var wsize := |payload| * 2;
    blob := new Byte[DATA_OFFSET + wsize](_ => 0);
    PutHeader(blob, wsize);
    for i := 0 to |payload|
      invariant IsHeader(blob[..], wsize)
      invariant forall j :: 0 <= j < i ==> Le16(blob[..], DATA_OFFSET + 2 * j) == Float32ToFloat16Bits(payload[j])
    {
      ghost var before := blob[..];
      PutUint16(blob, DATA_OFFSET + i * 2, Float32ToFloat16Bits(payload[i]));
      HeaderKept(before, blob[..], wsize);
      forall j | 0 <= j < i
        ensures Le16(blob[..], DATA_OFFSET + 2 * j) == Float32ToFloat16Bits(payload[j])
      {
        assert Le16(before, DATA_OFFSET + 2 * j) == Float32ToFloat16Bits(payload[j]);
      }
    }
  }

  lemma HeaderKept(before: seq<Byte>, after: seq<Byte>, wsize: nat)
    requires IsHeader(before, wsize) && |after| == |before|
    requires forall k :: 0 <= k < DATA_OFFSET ==> after[k] == before[k]
    ensures IsHeader(after, wsize)
  {
    hide Join;
    assert Le32(after, 72) == Le32(before, 72) && Le32(after, 80) == Le32(before, 80);
  }

  method PutHeader(blob: array<Byte>, wsize: nat)
    requires blob.Length == DATA_OFFSET + wsize && forall k :: 0 <= k < blob.Length ==> blob[k] == 0
    modifies blob
    ensures IsHeader(blob[..], wsize)
  {
    blob[0], blob[4] := 0x01, 0x02;
    blob[64], blob[65], blob[66], blob[67], blob[68] := 0xEF, 0xBE, 0xAD, 0xDE, 0x01;
    PutUint32(blob, 72, wsize % 0x1_0000_0000);
    ghost var before := blob[..];
    PutUint32(blob, 80, DATA_OFFSET);
    assert Le32(blob[..], 72) == Le32(before, 72);
  }

  method BuildLinearWeightsBlob(w: seq<Word32>, outDim: int, inDim: int) returns (r: Option<array<Byte>>)
    ensures r.Some? <==> outDim > 0 && inDim > 0 && |w| == outDim * inDim
    ensures r.Some? ==> IsBlob(r.value[..], w)
  {
    if outDim <= 0 || inDim <= 0 || |w| != outDim * inDim {
      return None;
    }
    var blob := BuildBLOBFileFP16(w);
    r := Some(blob);
  }

  lemma EightBits()
    ensures Pow2(8) == 256
  {
    assert Pow2(4) == 16;
    Pow2Add(4, 4);
  }

  /** 65520.0, the smallest positive number of binary16, and a NaN. */
  lemma WhereTheyDiffer()
    ensures Float32ToFloat16Bits(0x477f_f000) % 0x8000 == INF16 && Float32ToFP16(0x477f_f000) % 0x8000 == INF16 - 1
    ensures Float32ToFloat16Bits(Widen(1)) == 1 && Float32ToFP16(Widen(1)) != 1
    ensures Float32ToFloat16Bits(Widen(0x7e00)) == 0x7e00 && Float32ToFP16(Widen(0x7e00)) != 0x7e00
  {
    hide Pow2, Widen, Float32ToFloat16Bits, Float32ToFP16;
    RoundTrips(1);
    RoundTrips(0x7e00);
    assert Pow2(149) == 256 * Pow2(141) by {
      Pow2Add(141, 8);
      EightBits();
    }
    assert Value32(0x477f_f000) == 0xff_f000 * Pow2(141);
    CodecsDisagree(0x477f_f000);
  }

  /** Numbers that binary16 has in full: sign, exponent moved by 112 and the upper ten bits of the
      fraction, by either encoder. */
  lemma ExactNumbers(sign: nat, exp: nat, frac: nat)
    requires sign < 2 && 113 <= exp <= 142 && frac < 0x80_0000 && frac % 0x2000 == 0
    ensures var b := Word(sign, exp, frac);
      Float32ToFloat16Bits(b) == Float32ToFP16(b) == sign * 0x8000 + (exp - 112) * 0x400 + frac / 0x2000
  {
    hide Word, Sign32, Exp32, Frac32;
  }

  /** The smallest positive number of binary16, 2^-24, and half of it, which one encoder rounds up. */
  lemma SmallNumbers()
    ensures Float32ToFloat16Bits(0x3380_0000) == 1 && Float32ToFP16(0x3380_0000) == 0
    ensures Float32ToFloat16Bits(0x3300_0000) == 1 && Float32ToFloat16Bits(0x32ff_ffff) == 0
  {
    hide Pow2, Subnormal;
    SubnormalOnes();
  }

  lemma SubnormalOnes()
    ensures Subnormal(0x80_0000, 23) == Subnormal(0x80_0000, 24) == 1
  {
    hide Pow2;
    Pow2Values();
    Pow2Step(22);
    assert Pow2(22) == 0x40_0000;
  }

  /** 1.0 and -2.5. */
  lemma PlainNumbers()
    ensures Float32ToFloat16Bits(0x3f80_0000) == Float32ToFP16(0x3f80_0000) == 0x3c00
    ensures Float32ToFloat16Bits(0xc020_0000) == Float32ToFP16(0xc020_0000) == 0xc100
  {
    assert Word(0, 127, 0) == 0x3f80_0000 && Word(1, 128, 0x20_0000) == 0xc020_0000;
    hide Float32ToFloat16Bits, Float32ToFP16;
    ExactNumbers(0, 127, 0);
    ExactNumbers(1, 128, 0x20_0000);
  }
}
