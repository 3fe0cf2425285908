/** Base-16, base-32 and base-64 conversion of byte streams (lib/util/basen.h). */
module BaseN {

  // ---------------------------------------------------------------- alphabets

  /** The three conversion traits classes. */
  datatype Traits = B16 | B32 | B64 {

    /** Bits per symbol. */
    function GroupLength(): (g: nat)
      ensures 4 <= g <= 6
    {
      match this
      case B16 => 4
      case B32 => 5
      case B64 => 6
    }

    function Dictionary(): (d: string)
      ensures |d| == Size()
    {
      match this
      case B16 => "0123456789ABCDEF"
      case B32 => UPPER + "234567"
      case B64 => UPPER + LOWER + "0123456789" + "+/"
    }

    function Size(): nat {
      match this
      case B16 => 16
      case B32 => 32
      case B64 => 64
    }

    function EncodeSymbol(index: nat): char
      requires index < Size()
    {
      Dictionary()[index]
    }

    function DecodeSymbol(c: char): nat {
      match this
      case B16 =>
        if '0' <= c <= '9' then c as int - '0' as int
        else if 'A' <= c <= 'F' then c as int - 'A' as int + 10
        else ERROR
      case B32 =>
        if 'A' <= c <= 'Z' then c as int - 'A' as int
        else if '2' <= c <= '7' then c as int - '2' as int + 26
        else ERROR
      case B64 =>
        if 'A' <= c <= 'Z' then c as int - 'A' as int
        else if 'a' <= c <= 'z' then c as int - 'a' as int + ALPH_LEN * 1
        else if '0' <= c <= '9' then c as int - '0' as int + ALPH_LEN * 2
        else if c == '+' then c as int - '+' as int + ALPH_LEN * 2 + 10
        else if c == '/' then c as int - '/' as int + ALPH_LEN * 2 + 11
        else ERROR
    }
  }

  const ERROR := 255
  const ALPH_LEN := 26
  const UPPER := "ABCDEFGHIJKLMNOPQRSTUVWXYZ"
  const LOWER := "abcdefghijklmnopqrstuvwxyz"

  /** `std::isspace` in the default locale. */
  predicate IsSpace(c: char) {
    c == ' ' || '\t' <= c <= '\r'
  }

  /** The character code of each symbol, as the runs of the dictionary give it. */
  function CodeOfIndex(t: Traits, i: nat): int
    requires i < t.Size()
  {
    match t
    case B16 => if i < 10 then 48 + i else 55 + i
    case B32 => if i < 26 then 65 + i else 24 + i
    case B64 =>
      if i < 26 then 65 + i else if i < 52 then 71 + i else if i < 62 then i - 4
      else if i == 62 then 43 else 47
  }

  lemma Letters(i: nat)
    requires i < 26
    ensures UPPER[i] as int == 65 + i && LOWER[i] as int == 97 + i
  {
  }

  lemma Digits(i: nat)
    requires i < 10
    ensures "0123456789"[i] as int == 48 + i
  {
  }

  lemma Code64(i: nat)
    requires i < 64
    ensures B64.EncodeSymbol(i) as int == CodeOfIndex(B64, i)
  {
    if i < 26 {
      Letters(i);
    } else if i < 52 {
      Letters(i - 26);
    } else if i < 62 {
      Digits(i - 52);
    }
  }

  lemma Code32(i: nat)
    requires i < 32
    ensures B32.EncodeSymbol(i) as int == CodeOfIndex(B32, i)
  {
    if i < 26 {
      Letters(i);
    }
  }

  lemma Code16(i: nat)
    requires i < 16
    ensures B16.EncodeSymbol(i) as int == CodeOfIndex(B16, i)
  {
  }

  lemma EncodeIsCode(t: Traits, i: nat)
    requires i < t.Size()
    ensures t.EncodeSymbol(i) as int == CodeOfIndex(t, i)
  {
    hide Traits.Dictionary, Traits.EncodeSymbol;
    match t
    case B16 => Code16(i);
    case B32 => Code32(i);
    case B64 => Code64(i);
  }

  /** The decoder's ranges invert the dictionary. */
  lemma DecodeOfEncode(t: Traits, i: nat)
    requires i < t.Size()
    ensures t.DecodeSymbol(t.EncodeSymbol(i)) == i != ERROR
    ensures !IsSpace(t.EncodeSymbol(i)) && t.EncodeSymbol(i) != '='
  {
    EncodeIsCode(t, i);
    hide Traits.Dictionary, Traits.EncodeSymbol;
  }

  lemma DecodeIsCode(t: Traits, c: char)
    requires t.DecodeSymbol(c) != ERROR
    ensures t.DecodeSymbol(c) < t.Size() && CodeOfIndex(t, t.DecodeSymbol(c)) == c as int
  {
    match t
    case B16 =>
    case B32 =>
    case B64 =>
  }

  /** The decoder accepts nothing but the dictionary. */
  lemma EncodeOfDecode(t: Traits, c: char)
    requires t.DecodeSymbol(c) != ERROR
    ensures t.DecodeSymbol(c) < t.Size() && t.EncodeSymbol(t.DecodeSymbol(c)) == c
  {
    hide Traits.Dictionary, Traits.EncodeSymbol, Traits.DecodeSymbol, CodeOfIndex;
    DecodeIsCode(t, c);
    EncodeIsCode(t, t.DecodeSymbol(c));
  }

  // ---------------------------------------------------------------- bits of a byte

  /** Bit `k` of a byte, counting from the most significant. */
  predicate BitAt(b: bv8, k: nat)
    requires k < 8
  {
    match k
    case 0 => b & 0x80 != 0
    case 1 => b & 0x40 != 0
    case 2 => b & 0x20 != 0
    case 3 => b & 0x10 != 0
    case 4 => b & 0x08 != 0
    case 5 => b & 0x04 != 0
    case 6 => b & 0x02 != 0
    case 7 => b & 0x01 != 0
  }

  /** `v << k`, narrowed to a byte. */
  function Shl(v: bv8, k: nat): bv8
    requires k <= 8
  {
    v << k
  }

  function Shr(v: bv8, k: nat): bv8
    requires k <= 8
  {
    v >> k
  }

  /** `v & ~(0xff << k)`. */
  function Low(v: bv8, k: nat): bv8
    requires k <= 8
  {
    v & !(0xFF << k)
  }

  function Or(v: bv8, w: bv8): bv8 {
    v | w
  }

  lemma ShlBit(v: bv8, k: nat, i: nat)
    requires k <= 8 && i < 8
    ensures BitAt(Shl(v, k), i) == (i + k < 8 && BitAt(v, i + k))
  {
    if k == 0 {} else if k == 1 {} else if k == 2 {} else if k == 3 {} else if k == 4 {} else
    if k == 5 {} else if k == 6 {} else if k == 7 {} else {}
  }

  lemma ShrBit(v: bv8, k: nat, i: nat)
    requires k <= 8 && i < 8
    ensures BitAt(Shr(v, k), i) == (k <= i && BitAt(v, i - k))
  {
    if k == 0 {} else if k == 1 {} else if k == 2 {} else if k == 3 {} else if k == 4 {} else
    if k == 5 {} else if k == 6 {} else if k == 7 {} else {}
  }

  lemma MaskBit(v: bv8, k: nat, i: nat)
    requires k <= 8 && i < 8
    ensures BitAt(Low(v, k), i) == (8 - k <= i && BitAt(v, i))
  {
    if k == 0 {} else if k == 1 {} else if k == 2 {} else if k == 3 {} else if k == 4 {} else
    if k == 5 {} else if k == 6 {} else if k == 7 {} else {}
  }

  lemma OrBit(v: bv8, w: bv8, i: nat)
    requires i < 8
    ensures BitAt(Or(v, w), i) == (BitAt(v, i) || BitAt(w, i))
  {
    match i {
      case 0 => case 1 => case 2 => case 3 => case 4 => case 5 => case 6 => case 7 =>
    }
  }

  /** Bits `from` up to `to` of a byte. */
  function Slice(b: bv8, from: nat, to: nat): (r: seq<bool>)
    requires from <= to <= 8
    ensures |r| == to - from
  {
    seq(to - from, i requires 0 <= i < to - from => BitAt(b, from + i))
  }

  lemma SameBits(a: bv8, b: bv8)
    requires forall i: nat | i < 8 :: BitAt(a, i) == BitAt(b, i)
    ensures a == b
  {
    assert BitAt(a, 0) == BitAt(b, 0) && BitAt(a, 1) == BitAt(b, 1) && BitAt(a, 2) == BitAt(b, 2) &&
           BitAt(a, 3) == BitAt(b, 3) && BitAt(a, 4) == BitAt(b, 4) && BitAt(a, 5) == BitAt(b, 5) &&
           BitAt(a, 6) == BitAt(b, 6) && BitAt(a, 7) == BitAt(b, 7);
  }

  /** The bits above the low `g` are zero. */
  predicate Fits(v: bv8, g: nat)
    requires g <= 8
  {
    forall i | 0 <= i < 8 - g :: !BitAt(v, i)
  }

  lemma FitsIsRange(t: Traits, v: bv8)
    ensures Fits(v, t.GroupLength()) <==> v as nat < t.Size()
  {
    assert Fits(v, 4) <==> !BitAt(v, 0) && !BitAt(v, 1) && !BitAt(v, 2) && !BitAt(v, 3);
    assert Fits(v, 5) <==> !BitAt(v, 0) && !BitAt(v, 1) && !BitAt(v, 2);
    assert Fits(v, 6) <==> !BitAt(v, 0) && !BitAt(v, 1);
  }

  // ---------------------------------------------------------------- extracting a group of bits

  function ExtractPartialBits(value: bv8, startBit: nat, bitsCount: nat): bv8
    requires startBit + bitsCount < 8
  {
    var t1 := Shr(value, 8 - bitsCount - startBit);
    Low(t1, bitsCount)
  }

  function ExtractOverlappingBits(previous: bv8, next: bv8, startBit: nat, bitsCount: nat): bv8
    requires startBit < 8 <= startBit + bitsCount && bitsCount <= 8
  {
    var bitsCountInPrevious := 8 - startBit;
    var bitsCountInNext := bitsCount - bitsCountInPrevious;
    var t1 := Shl(previous, bitsCountInNext);
    var t2 := Low(Shr(next, 8 - bitsCountInNext), bitsCountInNext);
    Low(Or(t1, t2), bitsCount)
  }

  lemma PartialBit(value: bv8, start: nat, g: nat, i: nat)
    requires start + g < 8 && i < 8
    ensures BitAt(ExtractPartialBits(value, start, g), i) == (8 - g <= i && BitAt(value, start + i - (8 - g)))
  {
    var t1 := Shr(value, 8 - g - start);
    MaskBit(t1, g, i);
    ShrBit(value, 8 - g - start, i);
    hide BitAt, Shr, Low;
  }

  lemma OverlappingBit(previous: bv8, next: bv8, start: nat, g: nat, i: nat)
    requires start < 8 <= start + g && g <= 8 && i < 8
    ensures var k := start + i - (8 - g);
            BitAt(ExtractOverlappingBits(previous, next, start, g), i) ==
            (8 - g <= i && if k < 8 then BitAt(previous, k) else BitAt(next, k - 8))
  {
    hide BitAt, Shl, Shr, Low, Or;
    var inNext := start + g - 8;
    var t1 := Shl(previous, inNext);
    var t2 := Low(Shr(next, 8 - inNext), inNext);
    MaskBit(Or(t1, t2), g, i);
    OrBit(t1, t2, i);
    ShlBit(previous, inNext, i);
    MaskBit(Shr(next, 8 - inNext), inNext, i);
    ShrBit(next, 8 - inNext, i);
  }

  lemma PartialSlice(value: bv8, start: nat, g: nat)
    requires start + g < 8
    ensures var r := ExtractPartialBits(value, start, g);
            Fits(r, g) && Slice(r, 8 - g, 8) == Slice(value, start, start + g)
  {
    var r := ExtractPartialBits(value, start, g);
    forall i: nat | i < 8
      ensures BitAt(r, i) == (8 - g <= i && BitAt(value, start + i - (8 - g)))
    {
      PartialBit(value, start, g, i);
    }
    hide BitAt, ExtractPartialBits;
  }

  lemma OverlappingSlice(previous: bv8, next: bv8, start: nat, g: nat)
    requires start < 8 <= start + g && g <= 8
    ensures var r := ExtractOverlappingBits(previous, next, start, g);
            Fits(r, g) && Slice(r, 8 - g, 8) == Slice(previous, start, 8) + Slice(next, 0, start + g - 8)
  {
    var r := ExtractOverlappingBits(previous, next, start, g);
    forall i: nat | i < 8
      ensures var k := start + i - (8 - g);
              BitAt(r, i) == (8 - g <= i && if k < 8 then BitAt(previous, k) else BitAt(next, k - 8))
    {
      OverlappingBit(previous, next, start, g, i);
    }
    hide BitAt, ExtractOverlappingBits;
  }

  lemma SliceSplit(b: bv8, from: nat, mid: nat, to: nat)
    requires from <= mid <= to <= 8
    ensures Slice(b, from, mid) + Slice(b, mid, to) == Slice(b, from, to)
  {
    hide BitAt;
  }

  // ---------------------------------------------------------------- bit strings

  function Zeros(n: nat): (bits: seq<bool>)
    ensures |bits| == n
  {
    seq(n, i => false)
  }

  /** The low `w` bits of every value, one after the other. */
  function Spread(values: seq<bv8>, w: nat): (bits: seq<bool>)
    requires w <= 8
    ensures |bits| == w * |values|
  {
    if values == [] then [] else
      var init := values[..|values| - 1];
      assert w * |values| == w * |init| + w;
      Spread(init, w) + Slice(values[|values| - 1], 8 - w, 8)
  }

  lemma SpreadAppend(values: seq<bv8>, v: bv8, w: nat)
    requires w <= 8
    ensures Spread(values + [v], w) == Spread(values, w) + Slice(v, 8 - w, 8)
  {
    assert (values + [v])[..|values|] == values;
  }

  lemma {:induction false} SpreadSplit(values: seq<bv8>, w: nat, k: nat)
    requires w <= 8 && k <= |values|
    ensures Spread(values, w) == Spread(values[..k], w) + Spread(values[k..], w)
  {
    assert Spread([], w) == [];
    hide Slice, Spread;
    if k == |values| {
      assert values[..k] == values && values[k..] == [];
    } else {
      var init, last := values[..|values| - 1], values[|values| - 1];
      SpreadSplit(init, w, k);
      assert init[..k] == values[..k] && init[k..] + [last] == values[k..] && values == init + [last];
      SpreadAppend(init[k..], last, w);
      SpreadAppend(init, last, w);
      Associate(Spread(init[..k], w), Spread(init[k..], w), Slice(last, 8 - w, 8));
    }
  }

  lemma Associate(a: seq<bool>, b: seq<bool>, c: seq<bool>)
    ensures (a + b) + c == a + (b + c)
  {
  }

  lemma Middle(a: seq<bool>, b: seq<bool>, c: seq<bool>)
    ensures (a + b + c)[|a|..|a| + |b|] == b
  {
  }

  /** Group `i` of the bit string is value `i`. */
  lemma SpreadAt(values: seq<bv8>, w: nat, i: nat)
    requires w <= 8 && i < |values|
    ensures w * i + w <= w * |values|
    ensures Spread(values, w)[w * i..w * i + w] == Slice(values[i], 8 - w, 8)
  {
    var a, b, c := Spread(values[..i], w), Slice(values[i], 8 - w, 8), Spread(values[i + 1..], w);
    SpreadSplit(values, w, i + 1);
    assert values[..i + 1] == values[..i] + [values[i]];
    SpreadAppend(values[..i], values[i], w);
    assert |a| == w * i && |b| == w;
    hide Slice, Spread;
    Middle(a, b, c);
  }

  lemma {:induction false} SpreadInjective(a: seq<bv8>, b: seq<bv8>, w: nat)
    requires w <= 8 && |a| == |b| && Spread(a, w) == Spread(b, w)
    requires forall v | v in a || v in b :: Fits(v, w)
    ensures a == b
  {
    forall i: nat | i < |a|
      ensures a[i] == b[i]
    {
      SpreadAt(a, w, i);
      SpreadAt(b, w, i);
      FittedBitsDetermine(a[i], b[i], w);
    }
  }

  lemma FittedBitsDetermine(a: bv8, b: bv8, w: nat)
    requires w <= 8 && Fits(a, w) && Fits(b, w) && Slice(a, 8 - w, 8) == Slice(b, 8 - w, 8)
    ensures a == b
  {
    forall i: nat | i < 8
      ensures BitAt(a, i) == BitAt(b, i)
    {
      if 8 - w <= i {
        assert Slice(a, 8 - w, 8)[i - (8 - w)] == Slice(b, 8 - w, 8)[i - (8 - w)];
      }
    }
    SameBits(a, b);
  }
}
