/** What the checksum of lib/util/crc16.cpp detects: linearity, the residue, bursts, and polynomial division. */
module Crc16Detection {
  import opened BaseN
  import opened Crc16

  // ---------------------------------------------------------------- linearity over messages

  function XorBits(a: seq<bool>, b: seq<bool>): (r: seq<bool>)
    requires |a| == |b|
    ensures |r| == |a|
  {
    seq(|a|, i requires 0 <= i < |a| => a[i] != b[i])
  }

  lemma XorBitOfXor(c: bv16, d: bv16, p: bool, q: bool)
    ensures XorBit(Xor(c, d), p != q) == Xor(XorBit(c, p), XorBit(d, q))
  {
    hide Xor;
    XorCancels(c, 0x8000);
    XorAssociates(c, d, 0x8000);
    XorAssociates(c, 0x8000, d);
    XorCommutes(d, 0x8000);
    XorExchange(c, 0x8000, d, 0x8000);
    XorCancels(0x8000, 0x8000);
    XorCancels(Xor(c, d), 0);
  }

  /** The register is linear in its start and in the message together. */
  lemma {:induction false} RemainderOfXor(c: bv16, d: bv16, a: seq<bool>, b: seq<bool>)
    requires |a| == |b|
    ensures Remainder(Xor(c, d), XorBits(a, b)) == Xor(Remainder(c, a), Remainder(d, b))
  {
    hide Xor, Shift, XorBit;
    if a != [] {
      var n := |a| - 1;
      RemainderOfXor(c, d, a[..n], b[..n]);
      assert XorBits(a, b)[..n] == XorBits(a[..n], b[..n]);
      XorBitOfXor(Remainder(c, a[..n]), Remainder(d, b[..n]), a[n], b[n]);
      ShiftOfXor(XorBit(Remainder(c, a[..n]), a[n]), XorBit(Remainder(d, b[..n]), b[n]));
    }
  }

  function XorBytes(x: seq<bv8>, y: seq<bv8>): (r: seq<bv8>)
    requires |x| == |y|
    ensures |r| == |x|
  {
    seq(|x|, i requires 0 <= i < |x| => x[i] ^ y[i])
  }

  lemma ByteMaskOfXor(a: bv8, b: bv8, m: bv8)
    requires m != 0 && m & (m - 1) == 0
    ensures (a ^ b) & m != 0 <==> ((a & m != 0) != (b & m != 0))
  {
  }

  lemma ByteXorBit(a: bv8, b: bv8, i: nat)
    requires i < 8
    ensures BitAt(a ^ b, i) == (BitAt(a, i) != BitAt(b, i))
  {
    hide BitAt, ByteMask;
    BitAtIsMask(a, i);
    BitAtIsMask(b, i);
    BitAtIsMask(a ^ b, i);
    ByteMaskOfXor(a, b, ByteMask(i));
  }

  lemma SliceOfXor(a: bv8, b: bv8)
    ensures Slice(a ^ b, 0, 8) == XorBits(Slice(a, 0, 8), Slice(b, 0, 8))
  {
    hide BitAt;
    forall i: nat | i < 8
      ensures BitAt(a ^ b, i) == (BitAt(a, i) != BitAt(b, i))
    {
      ByteXorBit(a, b, i);
    }
    assert Slice(a ^ b, 0, 8) == XorBits(Slice(a, 0, 8), Slice(b, 0, 8));
  }

  lemma XorBitsConcat(a: seq<bool>, b: seq<bool>, c: seq<bool>, d: seq<bool>)
    requires |a| == |b| && |c| == |d|
    ensures XorBits(a + c, b + d) == XorBits(a, b) + XorBits(c, d)
  {
  }

  lemma {:induction false} SpreadOfXor(x: seq<bv8>, y: seq<bv8>)
    requires |x| == |y|
    ensures Spread(XorBytes(x, y), 8) == XorBits(Spread(x, 8), Spread(y, 8))
  {
    hide Slice;
    if x != [] {
      var n := |x| - 1;
      SpreadOfXor(x[..n], y[..n]);
      assert XorBytes(x, y)[..n] == XorBytes(x[..n], y[..n]);
      SliceOfXor(x[n], y[n]);
      XorBitsConcat(Spread(x[..n], 8), Spread(y[..n], 8), Slice(x[n], 0, 8), Slice(y[n], 0, 8));
    }
  }

  /** The checksum of the bitwise difference is the difference of the checksums. */
  lemma CrcOfXor(x: seq<bv8>, y: seq<bv8>)
    requires |x| == |y|
    ensures Crc(XorBytes(x, y)) == Xor(Crc(x), Crc(y))
  {
    SpreadOfXor(x, y);
    RemainderOfXor(0, 0, Spread(x, 8), Spread(y, 8));
    hide Spread, Remainder;
  }

  // ---------------------------------------------------------------- residue

  function HighByte(c: bv16): bv8 { (c >> 8) as bv8 }

  function LowByte(c: bv16): bv8 { (c & 0xFF) as bv8 }

  lemma HighBit(c: bv16, k: nat)
    requires k < 8
    ensures BitAt(HighByte(c), k) == Has(c, k)
  {
    match k {
      case 0 => case 1 => case 2 => case 3 => case 4 => case 5 => case 6 => case 7 =>
    }
  }

  lemma LowBit(c: bv16, k: nat)
    requires k < 8
    ensures BitAt(LowByte(c), k) == Has(c, k + 8)
  {
    match k {
      case 0 => case 1 => case 2 => case 3 => case 4 => case 5 => case 6 => case 7 =>
    }
  }

  lemma LoadHalves(c: bv16)
    ensures Load(Slice(HighByte(c), 0, 8) + Slice(LowByte(c), 0, 8)) == c
  {
    hide Has, BitAt, HighByte, LowByte, Load;
    var bits := Slice(HighByte(c), 0, 8) + Slice(LowByte(c), 0, 8);
    forall k: nat | k < 16
      ensures Has(Load(bits), k) == Has(c, k)
    {
      LoadHas(bits, k);
      if k < 8 {
        HighBit(c, k);
      } else {
        LowBit(c, k - 8);
      }
    }
    HasDetermines(Load(bits), c);
  }

  lemma {:induction false} ShiftsOfZero(n: nat)
    ensures Shifts(0, n) == 0
  {
    if n > 0 {
      assert Shift(0) == 0;
      ShiftsOfZero(n - 1);
    }
  }

  /** Two bytes after a message leave residue zero exactly when they are its checksum, high byte first. */
  lemma Residue(message: seq<bv8>, high: bv8, low: bv8)
    ensures Crc(message + [high, low]) == 0 <==> high == HighByte(Crc(message)) && low == LowByte(Crc(message))
  {
    hide Xor, Shifts, Load, Remainder, Spread, HighByte, LowByte, Slice;
    var c := Crc(message);
    var bits := Slice(high, 0, 8) + Slice(low, 0, 8);
    assert message + [high, low] == (message + [high]) + [low];
    CrcAppend(message, high);
    CrcAppend(message + [high], low);
    RemainderConcat(c, Slice(high, 0, 8), Slice(low, 0, 8));
    RemainderIsLoad(c, bits);
    ShiftsOfZero(16);
    XorCancels(c, Load(bits));
    LoadHalves(c);
    XorCancels(c, c);
    if Crc(message + [high, low]) == 0 {
      ShiftsInjective(Xor(c, Load(bits)), 0, 16);
      LoadInjective(bits, Slice(HighByte(c), 0, 8) + Slice(LowByte(c), 0, 8));
      HalvesDetermine(high, low, HighByte(c), LowByte(c));
    }
  }

  lemma HalvesDetermine(a: bv8, b: bv8, c: bv8, d: bv8)
    requires Slice(a, 0, 8) + Slice(b, 0, 8) == Slice(c, 0, 8) + Slice(d, 0, 8)
    ensures a == c && b == d
  {
    var p, q := Slice(a, 0, 8) + Slice(b, 0, 8), Slice(c, 0, 8) + Slice(d, 0, 8);
    assert Slice(a, 0, 8) == p[..8] && Slice(b, 0, 8) == p[8..];
    assert Slice(c, 0, 8) == q[..8] && Slice(d, 0, 8) == q[8..];
    FittedBitsDetermine(a, c, 8);
    FittedBitsDetermine(b, d, 8);
  }

  // ---------------------------------------------------------------- bursts

  /** Registers that differ still differ after the same bits. */
  lemma {:induction false} RemainderInjective(c: bv16, d: bv16, bits: seq<bool>)
    requires Remainder(c, bits) == Remainder(d, bits)
    ensures c == d
  {
    hide Xor, Shift;
    if bits != [] {
      var n := |bits| - 1;
      var p, q := Remainder(c, bits[..n]), Remainder(d, bits[..n]);
      ShiftInjective(XorBit(p, bits[n]), XorBit(q, bits[n]));
      XorCancels(p, 0x8000);
      XorCancels(q, 0x8000);
      RemainderInjective(c, d, bits[..n]);
    }
  }

  lemma BurstOfBits(c: bv16, p: seq<bool>, u: seq<bool>, v: seq<bool>, s: seq<bool>)
    requires |u| == |v| <= 16 && u != v
    ensures Remainder(c, p + u + s) != Remainder(c, p + v + s)
  {
    hide Xor, Shifts, Load, Remainder;
    var d := Remainder(c, p);
    RemainderConcat(c, p + u, s);
    RemainderConcat(c, p, u);
    RemainderConcat(c, p + v, s);
    RemainderConcat(c, p, v);
    if Remainder(c, p + u + s) == Remainder(c, p + v + s) {
      RemainderInjective(Remainder(d, u), Remainder(d, v), s);
      RemainderIsLoad(d, u);
      RemainderIsLoad(d, v);
      ShiftsInjective(Xor(d, Load(u)), Xor(d, Load(v)), |u|);
      XorCommutes(d, Load(u));
      XorCommutes(d, Load(v));
      XorCancels(Load(u), d);
      XorCancels(Load(v), d);
      LoadInjective(u, v);
    }
  }

  /** Outside bits [from, from + 16) the two messages agree. */
  predicate DifferWithin(x: seq<bv8>, y: seq<bv8>, from: nat)
    requires |x| == |y|
  {
    forall k | 0 <= k < 8 * |x| && !(from <= k < from + 16) :: Spread(x, 8)[k] == Spread(y, 8)[k]
  }

  lemma ThreeParts(a: seq<bool>, lo: nat, hi: nat)
    requires lo <= hi <= |a|
    ensures a == a[..lo] + a[lo..hi] + a[hi..]
  {
  }

  /** An error burst inside sixteen consecutive bits always changes the checksum. */
  lemma BurstDetected(x: seq<bv8>, y: seq<bv8>, from: nat)
    requires |x| == |y| && x != y && DifferWithin(x, y, from)
    ensures Crc(x) != Crc(y)
  {
    var a, b := Spread(x, 8), Spread(y, 8);
    if a == b {
      SpreadInjective(x, y, 8);
    }
    hide Remainder, Spread;
    var lo := if from < |a| then from else |a|;
    var hi := if from + 16 < |a| then from + 16 else |a|;
    ThreeParts(a, lo, hi);
    ThreeParts(b, lo, hi);
    assert a[..lo] == b[..lo];
    assert a[hi..] == b[hi..];
    BurstOfBits(0, a[..lo], a[lo..hi], b[lo..hi], a[hi..]);
  }

  // ---------------------------------------------------------------- polynomial division

  /** x^16 + x^12 + x^5 + 1, highest power first. */
  const GENERATOR: seq<bool> := [
    true, false, false, false, true, false, false, false, false, false, false, true,
    false, false, false, false, true]

  /** The product of a polynomial over GF(2) with the generator. */
  function TimesGenerator(q: seq<bool>): (r: seq<bool>)
    ensures |r| == |q| + 16
  {
    if q == [] then Zeros(16)
    else
      var n := |q| - 1;
      var shifted := TimesGenerator(q[..n]) + [false];
      if q[n] then XorBits(shifted, Zeros(n) + GENERATOR) else shifted
  }

  /** The feedback bits of the register are the quotient. */
  function Quotient(bits: seq<bool>): (q: seq<bool>)
    ensures |q| == |bits|
  {
    if bits == [] then []
    else
      var n := |bits| - 1;
      Quotient(bits[..n]) + [Top(XorBit(Remainder(0, bits[..n]), bits[n]))]
  }

  function RegisterBits(c: bv16): (r: seq<bool>)
    ensures |r| == 16
  {
    seq(16, k requires 0 <= k < 16 => Has(c, k))
  }

  function ShiftRight(c: bv16): bv16 { c >> 1 }

  lemma MaskOfShiftLeft(c: bv16, m: bv16)
    ensures Meets(ShiftLeft(c), m) == Meets(c, ShiftRight(m))
    ensures !Meets(c, 0)
  {
  }

  lemma NextOne(k: nat)
    requires k < 16
    ensures ShiftRight(One(k)) == if k < 15 then One(k + 1) else 0
  {
  }

  lemma HasOfShiftLeft(c: bv16, k: nat)
    requires k < 16
    ensures Has(ShiftLeft(c), k) == (k < 15 && Has(c, k + 1))
  {
    hide One, Meets, ShiftLeft, ShiftRight;
    MaskOfShiftLeft(c, One(k));
    NextOne(k);
  }

  lemma HasOfFeedback(c: bv16, k: nat)
    requires k < 16
    ensures Has(Feedback(c), k) == (Top(c) && GENERATOR[k + 1])
  {
    HasOfZero(k);
    GeneratorWord(k);
    hide Top, Has, GENERATOR;
  }

  lemma GeneratorWord(k: nat)
    requires k < 16
    ensures Has(0x1021, k) == GENERATOR[k + 1]
  {
    match k {
      case 0 => case 1 => case 2 => case 3 => case 4 => case 5 => case 6 => case 7 =>
      case 8 => case 9 => case 10 => case 11 => case 12 => case 13 => case 14 => case 15 =>
    }
  }

  /** One step, coefficient by coefficient. */
  lemma StepCoefficient(c: bv16, k: nat)
    requires k < 16
    ensures Has(Shift(c), k) == ((k < 15 && Has(c, k + 1)) != (Top(c) && GENERATOR[k + 1]))
  {
    hide Has, Top, Shift, ShiftLeft, Feedback, Xor, GENERATOR;
    ShiftIsFeedback(c);
    HasOfXor(ShiftLeft(c), Feedback(c), k);
    HasOfShiftLeft(c, k);
    HasOfFeedback(c, k);
  }

  lemma HasOfXorBit(c: bv16, bit: bool, k: nat)
    requires k < 16
    ensures Has(XorBit(c, bit), k) == (Has(c, k) != (bit && k == 0))
    ensures Top(XorBit(c, bit)) == (Has(c, 0) != bit)
  {
    hide Xor, One, Has, Top;
    HasOfXor(c, One(0), k);
    HasOfXor(c, One(0), 0);
    HasOfOne(0, k);
    HasOfOne(0, 0);
    OneAtTop(XorBit(c, bit));
  }

  lemma OneAtTop(c: bv16)
    ensures One(0) == 0x8000 && Top(c) == Has(c, 0)
  {
  }

  lemma GeneratorTop()
    ensures |GENERATOR| == 17 && GENERATOR[0]
  {
  }

  lemma {:induction false} QuotientStep(q: seq<bool>, top: bool, i: nat)
    requires i < |q| + 17
    ensures TimesGenerator(q + [top])[i] ==
            ((i < |q| + 16 && TimesGenerator(q)[i]) != (top && |q| <= i && GENERATOR[i - |q|]))
  {
    GeneratorTop();
    hide GENERATOR;
    assert (q + [top])[..|q|] == q;
  }

  /** The message times x^16 is the quotient times the generator plus a remainder below x^16. */
  ghost predicate DividesTo(bits: seq<bool>, quotient: seq<bool>, remainder: bv16)
    requires |quotient| == |bits|
  {
    bits + Zeros(16) == XorBits(TimesGenerator(quotient), Zeros(|bits|) + RegisterBits(remainder))
  }

  /** Coefficient `i` of the longer dividend, from the coefficient of the shorter one. */
  lemma DividendStep(init: seq<bool>, bit: bool, q: seq<bool>, c: bv16, i: nat)
    requires |q| == |init| && DividesTo(init, q, c) && i < |init| + 17
    ensures (init + [bit] + Zeros(16))[i] ==
            ((i < |init| + 16 && TimesGenerator(q)[i]) !=
             (|init| <= i && ((i < |init| + 16 && Has(c, i - |init|)) != (i == |init| && bit))))
  {
    hide Has, TimesGenerator;
    if i < |init| + 16 {
      assert (init + Zeros(16))[i] == XorBits(TimesGenerator(q), Zeros(|init|) + RegisterBits(c))[i];
    }
  }

  lemma NextAt(product: seq<bool>, n: nat, c: bv16, i: nat)
    requires |product| == n + 16 && i < n + 16
    ensures XorBits(product, Zeros(n) + RegisterBits(c))[i] == (product[i] != (n <= i && Has(c, i - n)))
  {
    hide Has;
  }

  /** Coefficient `i` of the division identity for a message one bit longer. */
  lemma DivisionAt(init: seq<bool>, bit: bool, q: seq<bool>, c: bv16, i: nat)
    requires |q| == |init| && DividesTo(init, q, c) && i < |init| + 17
    ensures var d := XorBit(c, bit);
            (init + [bit] + Zeros(16))[i] ==
            (TimesGenerator(q + [Top(d)])[i] != (|init| < i && Has(Shift(d), i - |init| - 1)))
  {
    hide Has, Shift, XorBit, Top, One, GENERATOR, DividesTo, TimesGenerator, Zeros;
    GeneratorTop();
    var n, d := |init|, XorBit(c, bit);
    QuotientStep(q, Top(d), i);
    DividendStep(init, bit, q, c, i);
    HasOfXorBit(c, bit, if n <= i < n + 16 then i - n else 0);
    if n < i {
      StepCoefficient(d, i - n - 1);
    }
  }

  lemma DivisionStep(init: seq<bool>, bit: bool, q: seq<bool>, c: bv16)
    requires |q| == |init| && DividesTo(init, q, c)
    ensures var d := XorBit(c, bit); DividesTo(init + [bit], q + [Top(d)], Shift(d))
  {
    hide Has, Shift, XorBit, Top, TimesGenerator, XorBits, Zeros, RegisterBits;
    var n, d := |init|, XorBit(c, bit);
    var product := TimesGenerator(q + [Top(d)]);
    var next := XorBits(product, Zeros(n + 1) + RegisterBits(Shift(d)));
    var dividend := init + [bit] + Zeros(16);
    forall i: nat | i < n + 17
      ensures dividend[i] == next[i]
    {
      DivisionAt(init, bit, q, c, i);
      NextAt(product, n + 1, Shift(d), i);
    }
    assert dividend == next;
  }

  lemma DivisionOfNothing()
    ensures DividesTo([], [], 0)
  {
    hide Has;
    forall k: nat | k < 16
      ensures !Has(0, k)
    {
      HasOfZero(k);
    }
    assert [] + Zeros(16) == XorBits(Zeros(16), Zeros(0) + RegisterBits(0));
  }

  /** The register holds the remainder of the message times x^16 by the generator. */
  lemma {:induction false} Division(bits: seq<bool>)
    ensures DividesTo(bits, Quotient(bits), Remainder(0, bits))
  {
    hide Shift, XorBit, Top, DividesTo;
    if bits == [] {
      DivisionOfNothing();
    } else {
      var n := |bits| - 1;
      Division(bits[..n]);
      DivisionStep(bits[..n], bits[n], Quotient(bits[..n]), Remainder(0, bits[..n]));
      assert bits == bits[..n] + [bits[n]];
    }
  }

  /** The product seen from its highest coefficient. */
  lemma {:induction false} FrontAt(b: bool, q: seq<bool>, i: nat)
    requires i < |q| + 17
    ensures TimesGenerator([b] + q)[i] ==
            ((i < 17 && b && GENERATOR[i]) != (0 < i && TimesGenerator(q)[i - 1]))
    decreases |q|
  {
    hide TimesGenerator, GENERATOR;
    GeneratorTop();
    NoProduct(b, i);
    if q == [] {
      assert [b] + q == [b];
    } else {
      var n := |q| - 1;
      var p, t := q[..n], q[n];
      assert q == p + [t] && [b] + q == ([b] + p) + [t];
      QuotientStep([b] + p, t, i);
      if i < |p| + 17 {
        FrontAt(b, p, i);
      }
      if 0 < i {
        QuotientStep(p, t, i - 1);
      }
    }
  }

  lemma NoProduct(b: bool, i: nat)
    requires |GENERATOR| == 17
    ensures TimesGenerator([]) == Zeros(16)
    ensures i < 17 ==> TimesGenerator([b])[i] == (b && GENERATOR[i])
    ensures 0 < i < 17 ==> !TimesGenerator([])[i - 1]
  {
    hide GENERATOR;
    assert [b][..0] == [];
    assert TimesGenerator([b]) == if b then XorBits(Zeros(16) + [false], Zeros(0) + GENERATOR) else Zeros(16) + [false];
  }

  /** Coefficient `i` of quotient times generator plus remainder. */
  predicate Coefficient(q: seq<bool>, c: bv16, i: nat)
    requires i < |q| + 16
  {
    TimesGenerator(q)[i] != (|q| <= i && Has(c, i - |q|))
  }

  lemma {:induction false} SameCoefficients(q: seq<bool>, c: bv16, q': seq<bool>, c': bv16)
    requires |q| == |q'| && forall i: nat | i < |q| + 16 :: Coefficient(q, c, i) == Coefficient(q', c', i)
    ensures q == q' && c == c'
    decreases |q|
  {
    hide TimesGenerator, GENERATOR, Has;
    GeneratorTop();
    NoProduct(true, 0);
    if q == [] {
      forall k: nat | k < 16
        ensures Has(c, k) == Has(c', k)
      {
        assert Coefficient(q, c, k) == Coefficient(q', c', k);
      }
      HasDetermines(c, c');
    } else {
      var p, p' := q[1..], q'[1..];
      assert q == [q[0]] + p && q' == [q'[0]] + p';
      FrontAt(q[0], p, 0);
      FrontAt(q'[0], p', 0);
      assert Coefficient(q, c, 0) == Coefficient(q', c', 0);
      forall j: nat | j < |p| + 16
        ensures Coefficient(p, c, j) == Coefficient(p', c', j)
      {
        assert Coefficient(q, c, j + 1) == Coefficient(q', c', j + 1);
        FrontAt(q[0], p, j + 1);
        FrontAt(q'[0], p', j + 1);
      }
      SameCoefficients(p, c, p', c');
    }
  }

  /** Quotient and remainder are the only ones: the checksum is the remainder of the division, and nothing else is. */
  lemma DivisionUnique(bits: seq<bool>, quotient: seq<bool>, remainder: bv16)
    requires |quotient| == |bits|
    ensures DividesTo(bits, quotient, remainder) <==> quotient == Quotient(bits) && remainder == Remainder(0, bits)
  {
    Division(bits);
    hide Remainder, Quotient, TimesGenerator, Has;
    if DividesTo(bits, quotient, remainder) {
      forall i: nat | i < |bits| + 16
        ensures Coefficient(quotient, remainder, i) == Coefficient(Quotient(bits), Remainder(0, bits), i)
      {
        NextAt(TimesGenerator(quotient), |bits|, remainder, i);
        NextAt(TimesGenerator(Quotient(bits)), |bits|, Remainder(0, bits), i);
      }
      SameCoefficients(quotient, remainder, Quotient(bits), Remainder(0, bits));
    }
  }

  // ---------------------------------------------------------------- parity

  /** The number of bits set. */
  function Weight(bits: seq<bool>): nat {
    if bits == [] then 0 else Weight(bits[..|bits| - 1]) + if bits[|bits| - 1] then 1 else 0
  }

  predicate Odd(bits: seq<bool>) { Weight(bits) % 2 == 1 }

  lemma OddStep(bits: seq<bool>)
    requires bits != []
    ensures Odd(bits) == (Odd(bits[..|bits| - 1]) != bits[|bits| - 1])
  {
  }

  lemma {:induction false} OddOfXor(a: seq<bool>, b: seq<bool>)
    requires |a| == |b|
    ensures Odd(XorBits(a, b)) == (Odd(a) != Odd(b))
  {
    if a != [] {
      var n := |a| - 1;
      OddOfXor(a[..n], b[..n]);
      assert XorBits(a, b)[..n] == XorBits(a[..n], b[..n]);
      OddStep(a);
      OddStep(b);
      OddStep(XorBits(a, b));
    }
    hide Odd;
  }

  /** Whether an odd number of the first `k` bits of the register is set. */
  predicate OddUpTo(c: bv16, k: nat)
    requires k <= 16
  {
    k > 0 && OddUpTo(c, k - 1) != Has(c, k - 1)
  }

  /** The same for the generator without its highest coefficient. */
  predicate GeneratorOdd(k: nat)
    requires k <= 16
  {
    k > 0 && GeneratorOdd(k - 1) != GENERATOR[k]
  }

  lemma GeneratorIsEven()
    ensures GeneratorOdd(16)
  {
    assert GeneratorOdd(3) == false;
    assert GeneratorOdd(6) == true;
    assert GeneratorOdd(9) == true;
    assert GeneratorOdd(12) == false;
    assert GeneratorOdd(15) == false;
  }

  lemma {:induction false} ShiftedParity(c: bv16, k: nat)
    requires k <= 15
    ensures OddUpTo(Shift(c), k) == ((OddUpTo(c, k + 1) != Has(c, 0)) != (Top(c) && GeneratorOdd(k)))
  {
    hide Shift, Has, Top, GENERATOR;
    GeneratorTop();
    if k == 0 {
      assert !OddUpTo(c, 0);
    } else {
      ShiftedParity(c, k - 1);
      StepCoefficient(c, k - 1);
    }
  }

  /** A register step keeps the parity, for the generator has an even number of terms. */
  lemma ShiftKeepsParity(c: bv16)
    ensures OddUpTo(Shift(c), 16) == OddUpTo(c, 16)
  {
    hide Shift, Has, Top, GENERATOR;
    GeneratorTop();
    ShiftedParity(c, 15);
    StepCoefficient(c, 15);
    OneAtTop(c);
    GeneratorIsEven();
  }

  lemma {:induction false} XorBitParity(c: bv16, bit: bool, k: nat)
    requires k <= 16
    ensures OddUpTo(XorBit(c, bit), k) == (OddUpTo(c, k) != (k > 0 && bit))
  {
    hide Has, XorBit;
    if k > 0 {
      XorBitParity(c, bit, k - 1);
      HasOfXorBit(c, bit, k - 1);
    }
  }

  lemma {:induction false} RemainderParity(c: bv16, bits: seq<bool>)
    ensures OddUpTo(Remainder(c, bits), 16) == (OddUpTo(c, 16) != Odd(bits))
  {
    hide Shift, Has, XorBit, OddUpTo, Odd;
    if bits == [] {
      EmptyIsEven();
    } else {
      var n := |bits| - 1;
      RemainderParity(c, bits[..n]);
      XorBitParity(Remainder(c, bits[..n]), bits[n], 16);
      ShiftKeepsParity(XorBit(Remainder(c, bits[..n]), bits[n]));
      OddStep(bits);
    }
  }

  lemma EmptyIsEven()
    ensures !Odd([])
  {
  }

  /** The checksum of a message has the parity of the message. */
  lemma CrcParity(message: seq<bv8>)
    ensures OddUpTo(Crc(message), 16) == Odd(Spread(message, 8))
  {
    hide Remainder, Has, Odd, Spread;
    RemainderParity(0, Spread(message, 8));
    ZeroIsEven(16);
  }

  lemma {:induction false} ZeroIsEven(k: nat)
    requires k <= 16
    ensures !OddUpTo(0, k)
  {
    hide Has;
    if k > 0 {
      ZeroIsEven(k - 1);
      HasOfZero(k - 1);
    }
  }

  /** Two messages of one length that differ in an odd number of bits never share a checksum. */
  lemma OddErrorDetected(x: seq<bv8>, y: seq<bv8>)
    requires |x| == |y| && Odd(XorBits(Spread(x, 8), Spread(y, 8)))
    ensures Crc(x) != Crc(y)
  {
    hide Odd, OddUpTo, Crc, Spread;
    CrcParity(x);
    CrcParity(y);
    OddOfXor(Spread(x, 8), Spread(y, 8));
  }
}
