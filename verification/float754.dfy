// Common/serial.c:21-80, the floating-point codec, in exact real arithmetic: a word
// of a given width holds a sign bit, a biased exponent and a significand, as in
// section 3.4 of IEEE 754-2008 but without subnormals, infinities or NaNs.
module Float754 {
  import opened Bytes

  function Pow2(n: nat): (p: int)
    ensures p >= 1
  {
    if n == 0 then 1 else 2 * Pow2(n - 1)
  }

  lemma {:induction false} Pow2Sum(a: nat, b: nat)
    ensures Pow2(a + b) == Pow2(a) * Pow2(b)
  {
    if a > 0 {
      Pow2Sum(a - 1, b);
      assert Pow2(a + b) == 2 * (Pow2(a - 1) * Pow2(b));
    }
  }

  /** m times two to the power k, for any integer k. */
  function Scaled(m: real, k: int): (f: real)
    decreases if k < 0 then -k else k
  {
    if k == 0 then m else if k > 0 then 2.0 * Scaled(m, k - 1) else Scaled(m, k + 1) / 2.0
  }

  lemma {:induction false} ScaledStep(m: real, k: int)
    ensures Scaled(2.0 * m, k) == Scaled(m, k + 1) == 2.0 * Scaled(m, k)
    decreases if k < 0 then -k else k
  {
    if k > 0 { ScaledStep(m, k - 1); }
    if k < 0 { ScaledStep(m, k + 1); }
  }

  lemma {:induction false} ScaledSum(a: real, b: real, k: int)
    ensures Scaled(a + b, k) == Scaled(a, k) + Scaled(b, k)
    decreases if k < 0 then -k else k
  {
    if k > 0 { ScaledSum(a, b, k - 1); }
    if k < 0 { ScaledSum(a, b, k + 1); }
  }

  lemma {:induction false} ScaledLess(a: real, b: real, k: int)
    requires a < b
    ensures Scaled(a, k) < Scaled(b, k)
    decreases if k < 0 then -k else k
  {
    if k > 0 { ScaledLess(a, b, k - 1); }
    if k < 0 { ScaledLess(a, b, k + 1); }
  }

  lemma {:induction false} ScaledZero(k: int)
    ensures Scaled(0.0, k) == 0.0
    decreases if k < 0 then -k else k
  {
    if k > 0 { ScaledZero(k - 1); }
    if k < 0 { ScaledZero(k + 1); }
  }

  lemma {:induction false} ScaledTwice(m: real, a: int, b: int)
    ensures Scaled(Scaled(m, a), b) == Scaled(m, a + b)
    decreases if b < 0 then -b else b
  {
    if b > 0 {
      ScaledTwice(m, a, b - 1);
      ScaledStep(m, a + b - 1);
    }
    if b < 0 {
      ScaledTwice(m, a, b + 1);
      ScaledStep(m, a + b);
    }
  }

  /** Scaling is multiplying or dividing by the power of two. */
  lemma {:induction false} ScaledIsProduct(m: real, n: nat)
    ensures Scaled(m, n) == m * (Pow2(n) as real)
    ensures Scaled(m, 0 - n) == m / (Pow2(n) as real)
  {
    if n > 0 {
      ScaledIsProduct(m, n - 1);
      var p := Pow2(n - 1) as real;
      assert Pow2(n) as real == 2.0 * p;
      assert 2.0 * (m * p) == m * (2.0 * p);
      assert m / p / 2.0 == m / (2.0 * p) by {
        var q := m / p / 2.0;
        assert q * 2.0 * p == m;
        assert q * (2.0 * p) == q * 2.0 * p;
      }
      assert Scaled(m, 0 - n) == Scaled(m, 0 - (n - 1)) / 2.0;
    }
  }

  /** Bitwise or. */
  function Or(a: nat, b: nat): (r: nat)
    decreases a + b
  {
    if a == 0 && b == 0 then 0 else 2 * Or(a / 2, b / 2) + if a % 2 == 1 || b % 2 == 1 then 1 else 0
  }

  /** Or-ing into bits that are zero is adding. */
  lemma {:induction false} OrAdds(a: nat, b: nat, k: nat)
    requires b < Pow2(k)
    ensures Or(a * Pow2(k), b) == a * Pow2(k) + b
  {
    if k == 0 {
      OrZero(a);
    } else {
      var h := a * Pow2(k - 1);
      assert a * Pow2(k) == 2 * h;
      OrAdds(a, b / 2, k - 1);
      assert Or(2 * h, b) == 2 * Or(h, b / 2) + b % 2;
    }
  }

  lemma {:induction false} OrZero(a: nat)
    ensures Or(a, 0) == a
  {
    if a > 0 { OrZero(a / 2); }
  }

  /** Or-ing a single bit into an exponent field sets its lowest bit. */
  lemma {:induction false} OrBit(e: nat, k: nat)
    ensures Or(e * Pow2(k), Pow2(k)) == MadeOdd(e) * Pow2(k)
  {
    if k == 0 {
      OrZero(e / 2);
    } else {
      var p := Pow2(k - 1);
      DoubleProduct(e, p);
      OrDouble(e * p, p);
      OrBit(e, k - 1);
      DoubleProduct(MadeOdd(e), p);
    }
  }

  function MadeOdd(e: nat): nat { if e % 2 == 1 then e else e + 1 }

  lemma DoubleProduct(e: nat, p: nat)
    ensures e * (2 * p) == 2 * (e * p) && e * p >= 0
  {
  }

  lemma OrDouble(a: nat, b: nat)
    ensures Or(2 * a, 2 * b) == 2 * Or(a, b)
  {
    assert 2 * a / 2 == a && 2 * b / 2 == b;
  }

  // ----- Normalisation

  /** The loop that divides by two. */
  function Halved(f: real, shift: int): (r: (real, int))
    requires f > 0.0
    ensures 0.0 < r.0 < 2.0
    decreases f.Floor
  {
    if f >= 2.0 then assert f / 2.0 <= f - 1.0; Halved(f / 2.0, shift + 1) else (f, shift)
  }

  /** The loop that multiplies by two: 1/f halves until it is at most one. */
  function Doubled(f: real, shift: int): (r: (real, int))
    requires 0.0 < f < 2.0
    ensures 1.0 <= r.0 < 2.0
    decreases (1.0 / f).Floor
  {
    if f < 1.0 then DoublingDescends(f); Doubled(f * 2.0, shift - 1) else (f, shift)
  }

  lemma DoublingDescends(f: real)
    requires 0.0 < f < 1.0
    ensures (1.0 / (f * 2.0)).Floor < (1.0 / f).Floor
  {
    var g := 1.0 / f;
    assert g * f == 1.0;
    assert g > 1.0;
    assert 1.0 / (f * 2.0) == g / 2.0 by { assert (g / 2.0) * (f * 2.0) == 1.0; }
    if g >= 2.0 { assert g / 2.0 <= g - 1.0; }
  }

  lemma {:induction false} HalvedKeepsValue(f: real, shift: int)
    requires f > 0.0
    ensures Scaled(f, shift) == Scaled(Halved(f, shift).0, Halved(f, shift).1)
    decreases f.Floor
  {
    if f >= 2.0 {
      assert f / 2.0 <= f - 1.0;
      ScaledStep(f / 2.0, shift);
      HalvedKeepsValue(f / 2.0, shift + 1);
    }
  }

  lemma {:induction false} DoubledKeepsValue(f: real, shift: int)
    requires 0.0 < f < 2.0
    ensures Scaled(f, shift) == Scaled(Doubled(f, shift).0, Doubled(f, shift).1)
    decreases (1.0 / f).Floor
  {
    if f < 1.0 {
      DoublingDescends(f);
      ScaledStep(f, shift - 1);
      DoubledKeepsValue(f * 2.0, shift - 1);
    }
  }

  function Normalised(f: real): (r: (real, int))
    requires f > 0.0
    ensures 1.0 <= r.0 < 2.0
  {
    var (g, s) := Halved(f, 0); Doubled(g, s)
  }

  lemma NormalForm(f: real)
    requires f > 0.0
    ensures f == Scaled(Normalised(f).0, Normalised(f).1)
  {
    var (g, s) := Halved(f, 0);
    HalvedKeepsValue(f, 0);
    DoubledKeepsValue(g, s);
  }

  lemma {:induction false} NotBelow(m: real, s: int, m': real, s': int)
    requires 0.0 < m < 2.0 && 1.0 <= m' && s < s'
    ensures Scaled(m, s) < Scaled(m', s')
    decreases s' - s
  {
    if s' == s + 1 {
      ScaledStep(m', s);
      ScaledLess(m, 2.0 * m', s);
    } else {
      ScaledStep(m', s' - 1);
      ScaledLess(m', 2.0 * m', s' - 1);
      NotBelow(m, s, m', s' - 1);
    }
  }

  /** A positive number has one normal form, and the two loops find it. */
  lemma NormalFormUnique(f: real, m: real, s: int)
    requires f > 0.0 && 1.0 <= m < 2.0 && f == Scaled(m, s)
    ensures Normalised(f) == (m, s)
  {
    NormalForm(f);
    var (m', s') := Normalised(f);
    if s < s' { NotBelow(m, s, m', s'); }
    if s' < s { NotBelow(m', s', m, s); }
    if m < m' { ScaledLess(m, m', s); }
    if m' < m { ScaledLess(m', m, s); }
  }

  // ----- Words

  /** The shape of a word: its width and the width of its exponent. */
  datatype Format = Format(bits: nat, expbits: nat) {
    ghost predicate Valid() { 1 <= expbits < bits <= 64 }

    function SigBits(): nat
      requires expbits < bits
    {
      bits - expbits - 1
    }

    function Bias(): int
      requires expbits >= 1
    {
      Pow2(expbits - 1) - 1
    }
  }

  function Abs(f: real): real { if f < 0.0 then -f else f }

  /** The scaled fraction, truncated. half is 0.5 where (1 << sigbits) + 0.5f is exact
      and 0 where single precision rounds the 0.5 away. */
  function Significand(fmt: Format, half: real, m: real): (sig: nat)
    requires fmt.Valid() && 0.0 <= half <= 0.5 && 1.0 <= m < 2.0
    ensures sig <= Pow2(fmt.SigBits())
  {
    var t := Pow2(fmt.SigBits()) as real + half;
    TruncateBound(m - 1.0, t, Pow2(fmt.SigBits()));
    Truncate(m - 1.0, t)
  }

  function Truncate(a: real, t: real): int { (a * t).Floor }

  lemma TruncateBound(a: real, t: real, s: int)
    requires 0.0 <= a < 1.0 && s >= 1 && s as real <= t <= s as real + 0.5
    ensures 0 <= Truncate(a, t) <= s
  {
    FractionBelow(a, t);
    FloorAtMost(a * t, s);
  }

  lemma FloorAtMost(x: real, s: int)
    requires x < s as real + 1.0
    ensures x.Floor <= s
  {
  }

  lemma FractionBelow(a: real, t: real)
    requires 0.0 <= a < 1.0 && t > 0.0
    ensures 0.0 <= a * t < t
  {
    assert (1.0 - a) * t > 0.0;
    assert a * t >= 0.0;
  }

  /** The exponent field before it is shifted into place. */
  function Biased(fmt: Format, f: real): int
    requires fmt.Valid() && f != 0.0
  {
    Normalised(Abs(f)).1 + fmt.Bias()
  }

  /** Whether the exponent of f fits its field. */
  predicate InRange(fmt: Format, f: real)
    requires fmt.Valid() && f != 0.0
  {
    0 <= Biased(fmt, f) < Pow2(fmt.expbits)
  }

  const LLONG := 0x1_0000_0000_0000_0000

  /** pack754; an exponent out of range is shifted and wrapped as it is. */
  function Pack(fmt: Format, half: real, f: real): nat
    requires fmt.Valid() && 0.0 <= half <= 0.5
  {
    if f == 0.0 then 0
    else
      var sign := if f < 0.0 then 1 else 0;
      var exp := (Biased(fmt, f) * Pow2(fmt.SigBits())) % LLONG;
      Or(Or(sign * Pow2(fmt.bits - 1), exp), Significand(fmt, half, Normalised(Abs(f)).0))
  }

  function Unpack(fmt: Format, w: nat): real
    requires fmt.Valid()
  {
    if w == 0 then 0.0
    else
      var s := Pow2(fmt.SigBits());
      var fraction := (w % s) as real / s as real + 1.0;
      var shift := (w / s) % Pow2(fmt.expbits) - fmt.Bias();
      var result := Scaled(fraction, shift);
      if (w / Pow2(fmt.bits - 1)) % 2 == 1 then -result else result
  }

  /** A word put together from its fields. */
  function Word(fmt: Format, sign: nat, e: nat, sig: nat): (w: nat)
    requires fmt.Valid()
  {
    NatProduct(sign, Pow2(fmt.expbits));
    NatProduct(sign * Pow2(fmt.expbits) + e, Pow2(fmt.SigBits()));
    (sign * Pow2(fmt.expbits) + e) * Pow2(fmt.SigBits()) + sig
  }

  lemma NatProduct(a: nat, b: nat)
    ensures a * b >= 0
  {
  }

  ghost predicate Fields(fmt: Format, sign: nat, e: nat, sig: nat) {
    fmt.Valid() && sign <= 1 && e < Pow2(fmt.expbits) && sig < Pow2(fmt.SigBits())
  }

  /** Every word of the width is put together from fields, in one way. */
  lemma SplitWord(fmt: Format, w: nat) returns (sign: nat, e: nat, sig: nat)
    requires fmt.Valid() && w < Pow2(fmt.bits)
    ensures Fields(fmt, sign, e, sig) && w == Word(fmt, sign, e, sig)
  {
    var p, s := Pow2(fmt.expbits), Pow2(fmt.SigBits());
    var h;
    h, sig := Divide(w, s);
    sign, e := Divide(h, p);
    FieldsFit(p, s, e, sig);
    Pow2Sum(fmt.expbits, fmt.SigBits());
    Pow2Sum(1, fmt.bits - 1);
    var q := p * s;
    Distribute(sign, p, e, s);
    if sign >= 2 { TwiceTooMuch(sign, q); }
  }

  lemma Divide(w: nat, s: int) returns (q: nat, r: nat)
    requires s >= 1
    ensures w == q * s + r && r < s
  {
    q, r := w / s, w % s;
  }

  lemma TwiceTooMuch(sign: int, q: int)
    requires sign >= 2 && q >= 1
    ensures sign * q >= 2 * q
  {
    assert (sign - 2) * q >= 0;
  }

  lemma Distribute(sign: int, p: int, e: int, s: int)
    ensures (sign * p + e) * s == sign * (p * s) + e * s
  {
    assert (sign * p) * s == sign * (p * s);
  }

  lemma WordFields(fmt: Format, sign: nat, e: nat, sig: nat)
    requires Fields(fmt, sign, e, sig)
    ensures var w := Word(fmt, sign, e, sig);
            && w % Pow2(fmt.SigBits()) == sig
            && (w / Pow2(fmt.SigBits())) % Pow2(fmt.expbits) == e
            && w / Pow2(fmt.bits - 1) == sign
            && (w == 0 <==> sign == 0 && e == 0 && sig == 0)
  {
    var p, s := Pow2(fmt.expbits), Pow2(fmt.SigBits());
    var w := Word(fmt, sign, e, sig);
    DivModUnique(w, s, sign * p + e, sig);
    DivModUnique(sign * p + e, p, sign, e);
    Pow2Sum(fmt.expbits, fmt.SigBits());
    assert Pow2(fmt.bits - 1) == p * s;
    FieldsFit(p, s, e, sig);
    Distribute(sign, p, e, s);
    DivModUnique(w, p * s, sign, e * s + sig);
    if w == 0 { if sign > 0 || e > 0 { MulAtLeast(sign * p + e, s); } }
  }

  lemma FieldsFit(p: int, s: int, e: int, sig: int)
    requires 0 <= e < p && 0 <= sig < s
    ensures 0 <= e * s + sig < p * s
  {
    assert (p - 1 - e) * s >= 0;
    assert p * s == e * s + s + (p - 1 - e) * s;
    NatProduct(e, s);
  }

  /** What the fields mean. */
  function Value(fmt: Format, sign: nat, e: nat, sig: nat): real
    requires fmt.Valid()
  {
    var v := Scaled(1.0 + Scaled(sig as real, 0 - fmt.SigBits()), e - fmt.Bias());
    if sign == 1 then -v else v
  }

  lemma UnpackIs(fmt: Format, sign: nat, e: nat, sig: nat)
    requires Fields(fmt, sign, e, sig)
    ensures var w := Word(fmt, sign, e, sig);
            Unpack(fmt, w) == if w == 0 then 0.0 else Value(fmt, sign, e, sig)
  {
    WordFields(fmt, sign, e, sig);
    ScaledIsProduct(sig as real, fmt.SigBits());
  }

  /** How packing fills the fields, with the scaled fraction reaching the hidden bit
      or not: if it does, it falls onto the lowest bit of the exponent. */
  lemma PackIs(fmt: Format, half: real, f: real)
    requires fmt.Valid() && 0.0 <= half <= 0.5 && f != 0.0 && InRange(fmt, f)
    ensures var sign, e, sig := (if f < 0.0 then 1 else 0), Biased(fmt, f),
            Significand(fmt, half, Normalised(Abs(f)).0);
            Pack(fmt, half, f) == if sig < Pow2(fmt.SigBits()) then Word(fmt, sign, e, sig)
                                     else Word(fmt, sign, MadeOdd(e), 0)
  {
    OrWord(fmt, if f < 0.0 then 1 else 0, Biased(fmt, f), Significand(fmt, half, Normalised(Abs(f)).0));
  }

  lemma OrWord(fmt: Format, sign: nat, e: nat, sig: nat)
    requires fmt.Valid() && sign <= 1 && e < Pow2(fmt.expbits) && sig <= Pow2(fmt.SigBits())
    ensures 0 <= e * Pow2(fmt.SigBits())
    ensures Or(Or(sign * Pow2(fmt.bits - 1), (e * Pow2(fmt.SigBits())) % LLONG), sig)
         == if sig < Pow2(fmt.SigBits()) then Word(fmt, sign, e, sig) else Word(fmt, sign, MadeOdd(e), 0)
  {
    var h := sign * Pow2(fmt.expbits) + e;
    OrFields(fmt, sign, e);
    NatProduct(sign, Pow2(fmt.expbits));
    if sig < Pow2(fmt.SigBits()) {
      OrAdds(h, sig, fmt.SigBits());
    } else {
      OrBit(h, fmt.SigBits());
      KeepsParity(sign, Pow2(fmt.expbits - 1), e);
      assert MadeOdd(h) == sign * Pow2(fmt.expbits) + MadeOdd(e);
    }
  }

  lemma KeepsParity(sign: nat, p: nat, e: nat)
    ensures (sign * (2 * p) + e) % 2 == e % 2
  {
    assert sign * (2 * p) == 2 * (sign * p);
  }

  lemma OrFields(fmt: Format, sign: nat, e: nat)
    requires fmt.Valid() && sign <= 1 && e < Pow2(fmt.expbits)
    ensures 0 <= e * Pow2(fmt.SigBits()) < LLONG
    ensures (e * Pow2(fmt.SigBits())) % LLONG == e * Pow2(fmt.SigBits())
    ensures Or(sign * Pow2(fmt.bits - 1), e * Pow2(fmt.SigBits()))
            == (sign * Pow2(fmt.expbits) + e) * Pow2(fmt.SigBits())
  {
    var p, s := Pow2(fmt.expbits), Pow2(fmt.SigBits());
    FieldsFit(p, s, e, 0);
    Pow2Sum(fmt.expbits, fmt.SigBits());
    PowerBound(fmt.bits - 1);
    ModExact(e * s, LLONG);
    OrAdds(sign, e * s, fmt.bits - 1);
    Distribute(sign, p, e, s);
  }

  lemma {:induction false} PowerBound(n: nat)
    ensures n < 64 ==> Pow2(n) <= Pow2(63) && Pow2(63) == 0x8000_0000_0000_0000
  {
    Pow2Values();
    if n < 64 { Pow2Sum(n, 63 - n); assert Pow2(n) * Pow2(63 - n) >= Pow2(n) by { MulAtLeast(Pow2(63 - n), Pow2(n)); } }
  }

  lemma Pow2Values()
    ensures Pow2(63) == 0x8000_0000_0000_0000
  {
    assert Pow2(8) == 0x100;
    Pow2Sum(8, 8);
    Pow2Sum(16, 16);
    Pow2Sum(32, 31);
    assert Pow2(32) == 2 * Pow2(31);
  }

  // ----- Round trip

  /** The significand of a word survives scaling and truncation. */
  lemma SignificandBack(fmt: Format, half: real, sig: nat)
    requires fmt.Valid() && 0.0 <= half <= 0.5 && sig < Pow2(fmt.SigBits())
    ensures var m := 1.0 + Scaled(sig as real, 0 - fmt.SigBits());
            1.0 <= m < 2.0 && Significand(fmt, half, m) == sig
  {
    var s := Pow2(fmt.SigBits());
    var a := Scaled(sig as real, 0 - fmt.SigBits());
    ScaledIsProduct(sig as real, fmt.SigBits());
    FractionBack(a, s, half, s as real + half, sig);
  }

  lemma FractionBack(a: real, s: int, half: real, t: real, sig: nat)
    requires s >= 1 && a == sig as real / (s as real) && sig < s && 0.0 <= half <= 0.5 && t == s as real + half
    ensures 0.0 <= a < 1.0 && Truncate(a, t) == sig
  {
    var r := s as real;
    assert a * r == sig as real;
    assert 0.0 <= a < 1.0;
    FractionOf(a, r, half, t);
    FloorNear(a * t);
  }

  /** Packing what a word unpacks to gives the word back, for every word of every
      width and exponent width. */
  lemma PackUnpackWord(fmt: Format, half: real, w: nat)
    requires fmt.Valid() && 0.0 <= half <= 0.5 && w < Pow2(fmt.bits)
    ensures Pack(fmt, half, Unpack(fmt, w)) == w
  {
    if w != 0 {
      var sign, e, sig := SplitWord(fmt, w);
      WordFields(fmt, sign, e, sig);
      UnpackIs(fmt, sign, e, sig);
      SignificandBack(fmt, half, sig);
      var m, shift, f := 1.0 + Scaled(sig as real, 0 - fmt.SigBits()), e - fmt.Bias(), Unpack(fmt, w);
      ScaledLess(0.0, m, shift);
      ScaledZero(shift);
      NormalFormUnique(Abs(f), m, shift);
      PackIs(fmt, half, f);
    }
  }

  /** 1.0 is the bias in the exponent field and nothing else, and -1.0 the same with the
      sign bit. */
  lemma OnesArePacked(fmt: Format, half: real)
    requires fmt.Valid() && fmt.expbits >= 2 && 0.0 <= half <= 0.5
    ensures 0 < fmt.Bias() && Pack(fmt, half, 1.0) == fmt.Bias() * Pow2(fmt.SigBits())
    ensures Pack(fmt, half, -1.0) == (Pow2(fmt.expbits) + fmt.Bias()) * Pow2(fmt.SigBits())
  {
    var e := fmt.Bias();
    assert Pow2(fmt.expbits) == 2 * Pow2(fmt.expbits - 1) && Pow2(fmt.expbits - 1) == 2 * Pow2(fmt.expbits - 2);
    ScaledZero(0 - fmt.SigBits());
    WordFields(fmt, 0, e, 0);
    WordFields(fmt, 1, e, 0);
    UnpackIs(fmt, 0, e, 0);
    UnpackIs(fmt, 1, e, 0);
    assert Value(fmt, 0, e, 0) == 1.0 && Value(fmt, 1, e, 0) == -1.0;
    MulAtLeast(e, Pow2(fmt.SigBits()));
    MulAtLeast(Pow2(fmt.expbits) + e, Pow2(fmt.SigBits()));
    PackUnpackWord(fmt, half, Word(fmt, 0, e, 0));
    PackUnpackWord(fmt, half, Word(fmt, 1, e, 0));
  }

  // ----- Rounding error

  /** One unit in the last place of f. */
  function Ulp(fmt: Format, f: real): real
    requires fmt.Valid() && f != 0.0
  {
    Scaled(1.0, Normalised(Abs(f)).1 - fmt.SigBits())
  }

  /** The scaled fraction before it is truncated. */
  function Fraction(fmt: Format, half: real, f: real): real
    requires fmt.Valid() && f != 0.0
  {
    (Normalised(Abs(f)).0 - 1.0) * (Pow2(fmt.SigBits()) as real + half)
  }

  /** The scaled fraction reaches the hidden bit. */
  predicate Carries(fmt: Format, half: real, f: real)
    requires fmt.Valid() && f != 0.0
  {
    Fraction(fmt, half, f) >= Pow2(fmt.SigBits()) as real
  }

  /** A positive number whose exponent field is 0 and whose fraction is truncated to 0. */
  predicate Vanishes(fmt: Format, half: real, f: real)
    requires fmt.Valid() && f != 0.0
  {
    f > 0.0 && Biased(fmt, f) == 0 && Fraction(fmt, half, f) < 1.0
  }

  lemma FloorReaches(x: real, s: int)
    requires x >= 0.0 && x.Floor <= s
    ensures x.Floor == s <==> x >= s as real
    ensures x.Floor == 0 <==> x < 1.0
  {
  }

  lemma TruncationTests(a: real, t: real, s: int)
    requires 0.0 <= a < 1.0 && t > 0.0 && Truncate(a, t) <= s
    ensures Truncate(a, t) == s <==> a * t >= s as real
    ensures Truncate(a, t) == 0 <==> a * t < 1.0
  {
    FractionBelow(a, t);
    FloorReaches(a * t, s);
  }

  /** The two tests on the significand, as bounds on the fraction. */
  lemma SignificandTests(fmt: Format, half: real, f: real)
    requires fmt.Valid() && 0.0 <= half <= 0.5 && f != 0.0
    ensures var sig := Significand(fmt, half, Normalised(Abs(f)).0);
            (sig == Pow2(fmt.SigBits()) <==> Carries(fmt, half, f)) && (sig == 0 <==> Fraction(fmt, half, f) < 1.0)
  {
    var a, t := Normalised(Abs(f)).0 - 1.0, Pow2(fmt.SigBits()) as real + half;
    var sig := Significand(fmt, half, Normalised(Abs(f)).0);
    assert sig == Truncate(a, t);
    TruncationTests(a, t, Pow2(fmt.SigBits()));
    assert Fraction(fmt, half, f) == a * t;
  }

  lemma WordIsZero(fmt: Format, sign: nat, e: nat, sig: nat)
    requires fmt.Valid()
    ensures Word(fmt, sign, e, sig) == 0 <==> sign == 0 && e == 0 && sig == 0
  {
    var p, s := Pow2(fmt.expbits), Pow2(fmt.SigBits());
    NatProduct(sign, p);
    NatProduct(sign * p + e, s);
    if sign > 0 { MulAtLeast(sign, p); }
    if sign * p + e > 0 { MulAtLeast(sign * p + e, s); }
  }

  /** The packed word of a number is 0 exactly when the number vanishes. */
  lemma PackIsZeroIff(fmt: Format, half: real, f: real)
    requires fmt.Valid() && 0.0 <= half <= 0.5 && f != 0.0 && InRange(fmt, f)
    ensures Pack(fmt, half, f) == 0 <==> Vanishes(fmt, half, f)
  {
    var sign, e, sig := if f < 0.0 then 1 else 0, Biased(fmt, f), Significand(fmt, half, Normalised(Abs(f)).0);
    PackIs(fmt, half, f);
    SignificandTests(fmt, half, f);
    WordIsZero(fmt, sign, e, sig);
    WordIsZero(fmt, sign, MadeOdd(e), 0);
  }

  /** Truncation in units of the last place: what is dropped or added is less than
      one unit, and reaching the hidden bit means being that close to it. */
  lemma TruncationError(fmt: Format, half: real, m: real)
    requires fmt.Valid() && 1.0 <= m < 2.0 && 0.0 <= half <= 0.5
    ensures var n, a, t := fmt.SigBits(), m - 1.0, Significand(fmt, half, m);
            && -1.0 < t as real - Scaled(a, n) < 1.0
            && (t == Pow2(n) ==> 0.0 < Scaled(1.0 - a, n) < 1.0 && (n > 0 ==> Scaled(a, n) >= 1.0))
  {
    var n, a := fmt.SigBits(), m - 1.0;
    var s := Pow2(n) as real;
    ScaledIsProduct(a, n);
    ScaledIsProduct(1.0, n);
    ScaledSum(a, 1.0 - a, n);
    ScaledLess(0.0, 1.0 - a, n);
    ScaledZero(n);
    Truncated(a, s, half, s + half);
  }

  lemma Truncated(a: real, s: real, half: real, t: real)
    requires 0.0 <= a < 1.0 && 0.0 <= half && t == s + half
    ensures a * s - 1.0 < Truncate(a, t) as real <= a * s + half
  {
    FractionOf(a, s, half, t);
    FloorNear(a * t);
  }

  lemma FloorNear(x: real)
    ensures x.Floor as real <= x < x.Floor as real + 1.0
  {
  }

  lemma FractionOf(a: real, s: real, half: real, t: real)
    requires 0.0 <= a < 1.0 && 0.0 <= half && t == s + half
    ensures a * s <= a * t <= a * s + half
  {
    NonNegativeProduct(a, half);
    NonNegativeProduct(1.0 - a, half);
    assert a * t == a * s + a * half;
    assert (1.0 - a) * half == half - a * half;
  }

  lemma NonNegativeProduct(a: real, c: real)
    requires a >= 0.0 && c >= 0.0
    ensures a * c >= 0.0
  {
  }

  /** A deviation of the mantissa compared with one unit in the last place. */
  lemma DeviationBelowUlp(d: real, n: nat, shift: int)
    ensures Scaled(d, shift) < Scaled(1.0, shift - n) <==> Scaled(d, n) < 1.0
  {
    ScaledTwice(d, n, shift - n);
    if Scaled(d, n) < 1.0 { ScaledLess(Scaled(d, n), 1.0, shift - n); }
    if Scaled(d, n) > 1.0 { ScaledLess(1.0, Scaled(d, n), shift - n); }
  }

  lemma ScaledNegated(d: real, k: int)
    ensures Scaled(-d, k) == -Scaled(d, k)
  {
    ScaledSum(d, -d, k);
    ScaledZero(k);
  }

  /** How far a decoded mantissa m' is from f with mantissa m and the same sign. */
  lemma ErrorOf(fmt: Format, f: real, m': real, v: real)
    requires fmt.Valid() && f != 0.0
    requires var shift := Normalised(Abs(f)).1; v == if f < 0.0 then -Scaled(m', shift) else Scaled(m', shift)
    ensures Abs(v - f) < Ulp(fmt, f) <==> -1.0 < Scaled(m' - Normalised(Abs(f)).0, fmt.SigBits()) < 1.0
  {
    var (m, shift) := Normalised(Abs(f));
    var d := m' - m;
    NormalForm(Abs(f));
    ScaledSum(m, d, shift);
    DeviationBelowUlp(d, fmt.SigBits(), shift);
    DeviationBelowUlp(-d, fmt.SigBits(), shift);
    ScaledNegated(d, shift);
    ScaledNegated(d, fmt.SigBits());
  }

  /** Where decoding lands: the mantissa it gives, relative to the exponent of f. */
  function DecodedMantissa(fmt: Format, half: real, f: real): (m': real)
    requires fmt.Valid() && 0.0 <= half <= 0.5 && f != 0.0
  {
    if !Carries(fmt, half, f) then 1.0 + Scaled(Significand(fmt, half, Normalised(Abs(f)).0) as real, 0 - fmt.SigBits())
    else if Biased(fmt, f) % 2 == 1 then 1.0 else 2.0
  }

  lemma DecodesTo(fmt: Format, half: real, f: real)
    requires fmt.Valid() && 0.0 <= half <= 0.5 && f != 0.0 && InRange(fmt, f) && Pack(fmt, half, f) != 0
    ensures var v := Scaled(DecodedMantissa(fmt, half, f), Normalised(Abs(f)).1);
            Unpack(fmt, Pack(fmt, half, f)) == if f < 0.0 then -v else v
  {
    PackIs(fmt, half, f);
    SignificandTests(fmt, half, f);
    if !Carries(fmt, half, f) {
      DecodesExactly(fmt, half, f);
    } else {
      CarriedValue(fmt, if f < 0.0 then 1 else 0, Biased(fmt, f));
    }
  }

  lemma DecodesExactly(fmt: Format, half: real, f: real)
    requires fmt.Valid() && 0.0 <= half <= 0.5 && f != 0.0 && InRange(fmt, f) && Pack(fmt, half, f) != 0
    requires !Carries(fmt, half, f)
    ensures var v := Scaled(DecodedMantissa(fmt, half, f), Normalised(Abs(f)).1);
            Unpack(fmt, Pack(fmt, half, f)) == if f < 0.0 then -v else v
  {
    PackIs(fmt, half, f);
    SignificandTests(fmt, half, f);
    UnpackIs(fmt, if f < 0.0 then 1 else 0, Biased(fmt, f), Significand(fmt, half, Normalised(Abs(f)).0));
  }

  lemma CarriedValue(fmt: Format, sign: nat, e: nat)
    requires fmt.Valid() && sign <= 1 && e < Pow2(fmt.expbits)
    ensures var w := Word(fmt, sign, MadeOdd(e), 0);
            var v := Scaled(if e % 2 == 1 then 1.0 else 2.0, e - fmt.Bias());
            w != 0 ==> Unpack(fmt, w) == if sign == 1 then -v else v
  {
    ScaledZero(0 - fmt.SigBits());
    assert Pow2(fmt.expbits) == 2 * Pow2(fmt.expbits - 1);
    UnpackIs(fmt, sign, MadeOdd(e), 0);
    ScaledStep(1.0, e - fmt.Bias());
  }

  /** Unpacking a packed number is off by less than one unit in the last place,
      except in two cases: its fraction reaches the hidden bit while the exponent field
      is odd, so the carry is lost, or it vanishes. */
  lemma ErrorBelowUlpIff(fmt: Format, half: real, f: real)
    requires fmt.Valid() && fmt.SigBits() >= 1 && 0.0 <= half <= 0.5 && f != 0.0 && InRange(fmt, f)
    ensures Abs(Unpack(fmt, Pack(fmt, half, f)) - f) < Ulp(fmt, f)
            <==> !Vanishes(fmt, half, f) && !(Carries(fmt, half, f) && Biased(fmt, f) % 2 == 1)
  {
    PackIsZeroIff(fmt, half, f);
    if Pack(fmt, half, f) == 0 {
      var (m, shift) := Normalised(Abs(f));
      ScaledZero(shift);
      ErrorOf(fmt, f, 0.0, 0.0);
      FarFromZero(m, fmt.SigBits());
    } else {
      DecodesTo(fmt, half, f);
      ErrorOf(fmt, f, DecodedMantissa(fmt, half, f), Unpack(fmt, Pack(fmt, half, f)));
      DecodedDeviation(fmt, half, f);
    }
  }

  /** The decoded mantissa is within a unit unless a carry was lost. */
  lemma DecodedDeviation(fmt: Format, half: real, f: real)
    requires fmt.Valid() && fmt.SigBits() >= 1 && 0.0 <= half <= 0.5 && f != 0.0
    ensures var d := DecodedMantissa(fmt, half, f) - Normalised(Abs(f)).0;
            -1.0 < Scaled(d, fmt.SigBits()) < 1.0 <==> !(Carries(fmt, half, f) && Biased(fmt, f) % 2 == 1)
  {
    var m, n := Normalised(Abs(f)).0, fmt.SigBits();
    SignificandTests(fmt, half, f);
    TruncationError(fmt, half, m);
    SignificandDeviation(Significand(fmt, half, m) as real, m - 1.0, n);
    ScaledNegated(m - 1.0, n);
  }

  /** A number of the 16-bit format that loses its carry: just below 2, it comes back
      as 1. */
  lemma CarryIsLost()
    ensures var fmt, f := Format(16, 5), 1.9998;
            && InRange(fmt, f) && Carries(fmt, 0.5, f) && Biased(fmt, f) == 15
            && Unpack(fmt, Pack(fmt, 0.5, f)) == 1.0
  {
    var fmt, f := Format(16, 5), 1.9998;
    NormalFormUnique(f, f, 0);
    SixteenBits();
    assert fmt.SigBits() == 10 && fmt.Bias() == 15;
    assert Fraction(fmt, 0.5, f) == 0.9998 * 1024.5;
    PackIsZeroIff(fmt, 0.5, f);
    DecodesTo(fmt, 0.5, f);
  }

  /** The word it is packed into is that of 1. */
  lemma CarriedWord()
    ensures Pack(Format(16, 5), 0.5, 1.9998) == 0x3C00
  {
    var fmt := Format(16, 5);
    CarryIsLost();
    SignificandTests(fmt, 0.5, 1.9998);
    PackIs(fmt, 0.5, 1.9998);
    SixteenBits();
  }

  /** The power of two whose exponent field would be 0 is packed as 0. */
  lemma SmallPowerVanishes(half: real)
    requires 0.0 <= half <= 0.5
    ensures var fmt, f := Format(16, 5), Scaled(1.0, -15);
            f != 0.0 && InRange(fmt, f) && Vanishes(fmt, half, f) && Unpack(fmt, Pack(fmt, half, f)) == 0.0
  {
    var fmt, f := Format(16, 5), Scaled(1.0, -15);
    ScaledLess(0.0, 1.0, -15);
    ScaledZero(-15);
    NormalFormUnique(f, 1.0, -15);
    SixteenBits();
    assert Fraction(fmt, half, f) == 0.0 * (Pow2(10) as real + half);
    PackIsZeroIff(fmt, half, f);
  }

  lemma SixteenBits()
    ensures Pow2(4) == 16 && Pow2(5) == 32 && Pow2(10) == 1024
  {
    Pow2Sum(5, 5);
  }

  lemma SignificandDeviation(t: real, a: real, n: nat)
    ensures Scaled(1.0 + Scaled(t, 0 - n) - (1.0 + a), n) == t - Scaled(a, n)
  {
    ScaledTwice(t, 0 - n, n);
    ScaledNegated(a, n);
    ScaledSum(Scaled(t, 0 - n), -a, n);
    assert 1.0 + Scaled(t, 0 - n) - (1.0 + a) == Scaled(t, 0 - n) + -a;
  }

  lemma FarFromZero(m: real, n: nat)
    requires m >= 1.0
    ensures Scaled(0.0 - m, n) <= -1.0
  {
    ScaledNegated(m, n);
    ScaledIsProduct(1.0, n);
    if m > 1.0 { ScaledLess(1.0, m, n); }
  }

  // ----- The loops

  method Pack754(fmt: Format, half: real, f: real) returns (w: nat)
    requires fmt.Valid() && 0.0 <= half <= 0.5
    ensures w == Pack(fmt, half, f)
  {
    if f == 0.0 { return 0; }
    var sign, fnorm := 0, f;
    if f < 0.0 { sign, fnorm := 1, -f; }
    var shift := 0;
    while fnorm >= 2.0
      invariant fnorm > 0.0 && Halved(Abs(f), 0) == Halved(fnorm, shift)
      decreases fnorm.Floor
    {
      assert fnorm / 2.0 <= fnorm - 1.0;
      fnorm, shift := fnorm / 2.0, shift + 1;
    }
    while fnorm < 1.0
      invariant 0.0 < fnorm < 2.0 && Normalised(Abs(f)) == Doubled(fnorm, shift)
      decreases (1.0 / fnorm).Floor
    {
      DoublingDescends(fnorm);
      fnorm, shift := fnorm * 2.0, shift - 1;
    }
    var significand := Significand(fmt, half, fnorm);
    var exp := shift + fmt.Bias();
    w := Or(Or(sign * Pow2(fmt.bits - 1), (exp * Pow2(fmt.SigBits())) % LLONG), significand);
  }

  method Unpack754(fmt: Format, w: nat) returns (f: real)
    requires fmt.Valid()
    ensures f == Unpack(fmt, w)
  {
    if w == 0 { return 0.0; }
    var result := (w % Pow2(fmt.SigBits())) as real / Pow2(fmt.SigBits()) as real + 1.0;
    var shift := (w / Pow2(fmt.SigBits())) % Pow2(fmt.expbits) - fmt.Bias();
    ghost var unpacked := Scaled(result, shift);
    while shift > 0
      invariant Scaled(result, shift) == unpacked
    {
      ScaledStep(result, shift - 1);
      result, shift := result * 2.0, shift - 1;
    }
    while shift < 0
      invariant Scaled(result, shift) == unpacked && shift <= 0
    {
      ScaledStep(result / 2.0, shift);
      result, shift := result / 2.0, shift + 1;
    }
    f := if (w / Pow2(fmt.bits - 1)) % 2 == 1 then -result else result;
  }
}
