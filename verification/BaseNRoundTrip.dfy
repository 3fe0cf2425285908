/** What base-n encoding and decoding promise together: layout, uniqueness and the round trip. */
module BaseNRoundTrip {
  import opened BaseN
  import opened BaseNCodec

  /** The alphabet characters of a text, in order; white space, '=' and anything else dropped. */
  function Symbols(t: Traits, text: string): string {
    if text == "" then ""
    else
      var init := Symbols(t, text[..|text| - 1]);
      var c := text[|text| - 1];
      if IsSymbol(t, c) then init + [c] else init
  }

  lemma SymbolsAppend(t: Traits, text: string, c: char)
    ensures IsSymbol(t, c) ==> Symbols(t, text + [c]) == Symbols(t, text) + [c]
    ensures !IsSymbol(t, c) ==> Symbols(t, text + [c]) == Symbols(t, text)
  {
    assert (text + [c])[..|text|] == text;
    hide IsSymbol;
  }

  /** A character outside the alphabet may be inserted anywhere. */
  lemma {:induction false} NoiseIgnored(t: Traits, a: string, c: char, b: string)
    requires !IsSymbol(t, c)
    ensures Symbols(t, a + [c] + b) == Symbols(t, a + b)
  {
    hide IsSymbol;
    if b == "" {
      SymbolsAppend(t, a, c);
      assert a + b == a && a + [c] + b == a + [c];
    } else {
      var init, last := b[..|b| - 1], b[|b| - 1];
      NoiseIgnored(t, a, c, init);
      assert a + [c] + b == (a + [c] + init) + [last] && a + b == (a + init) + [last];
      SymbolsAppend(t, a + [c] + init, last);
      SymbolsAppend(t, a + init, last);
    }
  }

  /** Only the alphabet characters carry values. */
  lemma {:induction false} ValuesOfSymbols(t: Traits, text: string)
    ensures |Values(t, text)| == |Symbols(t, text)|
    ensures Values(t, Symbols(t, text)) == Values(t, text)
  {
    hide IsSymbol, ValueOf;
    if text != "" {
      var init, c := text[..|text| - 1], text[|text| - 1];
      ValuesOfSymbols(t, init);
      ValuesAppend(t, Symbols(t, init), c);
    }
  }

  lemma {:induction false} SymbolsOfSymbols(t: Traits, text: string)
    requires forall i | 0 <= i < |text| :: IsSymbol(t, text[i])
    ensures Symbols(t, text) == text
  {
    hide IsSymbol;
    if text != "" {
      SymbolsOfSymbols(t, text[..|text| - 1]);
    }
  }

  /** The i-th value of a text made of symbols only. */
  lemma {:induction false} ValueAt(t: Traits, text: string, i: nat)
    requires forall k | 0 <= k < |text| :: IsSymbol(t, text[k])
    requires i < |text|
    ensures |Values(t, text)| == |text| && Values(t, text)[i] == ValueOf(t, text[i])
  {
    hide IsSymbol, ValueOf;
    var n := |text| - 1;
    SymbolsOfSymbols(t, text);
    ValuesOfSymbols(t, text);
    SymbolsOfSymbols(t, text[..n]);
    ValuesOfSymbols(t, text[..n]);
    if i < n {
      ValueAt(t, text[..n], i);
    }
  }

  // ---------------------------------------------------------------- layout

  /** The input bits, zero-extended to a whole number of groups. */
  function InputBits(t: Traits, x: seq<bv8>): seq<bool> {
    var groups := t.GroupLength() * SymbolCount(t, |x|);
    Spread(x, 8) + Zeros(if 8 * |x| <= groups then groups - 8 * |x| else 0)
  }

  /** Symbol `i` spells bits [g*i, g*i+g) of the zero-extended input. */
  lemma SymbolLayout(t: Traits, x: seq<bv8>, text: string, i: nat)
    requires IsEncoding(t, x, text) && i < SymbolCount(t, |x|)
    ensures var g := t.GroupLength();
            g * i + g <= |InputBits(t, x)| && IsSymbol(t, text[i]) &&
            Slice(ValueOf(t, text[i]), 8 - g, 8) == InputBits(t, x)[g * i..g * i + g]
  {
    hide IsSymbol, ValueOf, Spread, Slice, Values, SymbolCount;
    var g, n := t.GroupLength(), SymbolCount(t, |x|);
    var symbols := text[..n];
    assert forall k | 0 <= k < n :: symbols[k] == text[k];
    ValueAt(t, symbols, i);
    SpreadAt(Values(t, symbols), g, i);
  }

  /** The lengths of sections 8, 6 and 4 of RFC 4648. */
  lemma EncodedLength(t: Traits, x: seq<bv8>, text: string)
    requires IsEncoding(t, x, text)
    ensures t == B16 ==> |text| == 2 * |x| && '=' !in text
    ensures t == B32 ==> |text| == 8 * ((|x| + 4) / 5)
    ensures t == B64 ==> |text| == 4 * ((|x| + 2) / 3)
    ensures |Symbols(t, text)| == SymbolCount(t, |x|)
    ensures forall i | SymbolCount(t, |x|) <= i < |text| :: text[i] == '='
  {
    EncodedSymbols(t, x, text);
    hide Spread, Values;
    assert !IsSymbol(t, '=');
  }

  lemma {:induction false} PaddingCarriesNothing(t: Traits, symbols: string, n: nat)
    requires forall i | 0 <= i < |symbols| :: IsSymbol(t, symbols[i])
    ensures Symbols(t, symbols + seq(n, i => '=')) == symbols
  {
    hide IsSymbol;
    if n == 0 {
      SymbolsOfSymbols(t, symbols);
      assert symbols + seq(n, i => '=') == symbols;
    } else {
      PaddingCarriesNothing(t, symbols, n - 1);
      PadIsNoSymbol(t);
      assert symbols + seq(n, i => '=') == (symbols + seq(n - 1, i => '=')) + ['='];
      SymbolsAppend(t, symbols + seq(n - 1, i => '='), '=');
    }
  }

  lemma PadIsNoSymbol(t: Traits)
    ensures !IsSymbol(t, '=')
  {
  }

  lemma EncodedSymbols(t: Traits, x: seq<bv8>, text: string)
    requires IsEncoding(t, x, text)
    ensures Symbols(t, text) == text[..SymbolCount(t, |x|)]
  {
    hide IsSymbol, SymbolCount, Values, Spread, PaddedLength;
    var n := SymbolCount(t, |x|);
    var symbols := text[..n];
    assert forall k | 0 <= k < n :: symbols[k] == text[k];
    PaddingCarriesNothing(t, symbols, |text| - n);
    assert text == symbols + seq(|text| - n, i => '=');
  }

  /** Decoding `k` alphabet characters gives floor(g*k/8) bytes. */
  lemma DecodedLength(t: Traits, text: string, out: seq<bv8>)
    requires IsDecoding(t, text, out)
    ensures |out| == t.GroupLength() * |Symbols(t, text)| / 8
  {
    ValuesOfSymbols(t, text);
  }

  // ---------------------------------------------------------------- uniqueness

  lemma BytesFit(x: seq<bv8>)
    ensures forall v | v in x :: Fits(v, 8)
  {
  }

  lemma DecodingUnique(t: Traits, text: string, a: seq<bv8>, b: seq<bv8>)
    requires IsDecoding(t, text, a) && IsDecoding(t, text, b)
    ensures a == b
  {
    BytesFit(a);
    BytesFit(b);
    SpreadInjective(a, b, 8);
  }

  lemma SymbolDetermined(t: Traits, c: char, d: char)
    requires IsSymbol(t, c) && IsSymbol(t, d) && ValueOf(t, c) == ValueOf(t, d)
    ensures c == d
  {
    assert t.DecodeSymbol(c) == ValueOf(t, c) as nat == t.DecodeSymbol(d);
    EncodeOfDecode(t, c);
    EncodeOfDecode(t, d);
    hide Traits.DecodeSymbol, Traits.EncodeSymbol;
  }

  /** The bytes have one encoding only. */
  lemma EncodingUnique(t: Traits, x: seq<bv8>, a: string, b: string)
    requires IsEncoding(t, x, a) && IsEncoding(t, x, b)
    ensures a == b
  {
    hide IsSymbol, ValueOf, Spread, Values, SymbolCount, PaddedLength;
    var g, n := t.GroupLength(), SymbolCount(t, |x|);
    var p, q := a[..n], b[..n];
    assert forall k | 0 <= k < n :: p[k] == a[k] && q[k] == b[k];
    SymbolsOfSymbols(t, p);
    ValuesOfSymbols(t, p);
    SymbolsOfSymbols(t, q);
    ValuesOfSymbols(t, q);
    SpreadInjective(Values(t, p), Values(t, q), g);
    forall k | 0 <= k < |a|
      ensures a[k] == b[k]
    {
      if k < n {
        ValueAt(t, p, k);
        ValueAt(t, q, k);
        SymbolDetermined(t, a[k], b[k]);
      }
    }
  }

  // ---------------------------------------------------------------- the round trip

  /** Decoding an encoding gives the bytes back, whatever characters outside the alphabet are mixed in. */
  lemma RoundTrip(t: Traits, x: seq<bv8>, text: string, noisy: string, out: seq<bv8>)
    requires IsEncoding(t, x, text)
    requires Symbols(t, noisy) == Symbols(t, text)
    requires IsDecoding(t, noisy, out)
    ensures out == x
  {
    hide SymbolCount, Values, Spread, Symbols, IsSymbol, PaddedLength;
    var g, n := t.GroupLength(), SymbolCount(t, |x|);
    EncodedSymbols(t, x, text);
    ValuesOfSymbols(t, text);
    ValuesOfSymbols(t, noisy);
    var bits := Spread(Values(t, noisy), g);
    assert bits == Spread(x, 8) + Zeros(g * n - 8 * |x|);
    assert |out| == |x|;
    assert bits[..8 * |x|] == Spread(x, 8);
    BytesFit(out);
    BytesFit(x);
    SpreadInjective(out, x, 8);
  }

  // ---------- test vectors ----------

  /** The bits of "f", the byte 0x66. */
  const F_BITS: seq<bool> := [false, true, true, false, false, true, true, false]

  lemma OneByte()
    ensures Spread([0x66], 8) == F_BITS
  {
    var x: seq<bv8> := [0x66];
    assert x[..0] == [] && Spread([], 8) == [];
    assert Slice(0x66, 0, 8) == F_BITS;
    assert [] + F_BITS == F_BITS;
  }

  lemma TwoSymbols(t: Traits, c: char, d: char)
    requires IsSymbol(t, c) && IsSymbol(t, d)
    ensures var w := t.GroupLength();
      && |Values(t, [c, d])| == 2
      && Spread(Values(t, [c, d]), w) == Slice(ValueOf(t, c), 8 - w, 8) + Slice(ValueOf(t, d), 8 - w, 8)
  {
    var w := t.GroupLength();
    var none: string := [];
    ValuesAppend(t, none, c);
    ValuesAppend(t, [c], d);
    assert none + [c] == [c] && [c] + [d] == [c, d];
    var v := Values(t, [c, d]);
    assert v[..1] == [ValueOf(t, c)] && v[..1][..0] == [];
    assert Spread([], w) == [];
    assert Spread(v[..1], w) == [] + Slice(ValueOf(t, c), 8 - w, 8);
  }

  /** Two symbols and padding encode "f" if their bits are its bits and zeros. */
  lemma VectorOf(t: Traits, c: char, d: char, text: string)
    requires IsSymbol(t, c) && IsSymbol(t, d) && 2 <= |text| == PaddedLength(t, 1) && SymbolCount(t, 1) == 2
    requires text[0] == c && text[1] == d && forall i | 2 <= i < |text| :: text[i] == '='
    requires var w := t.GroupLength();
      Slice(ValueOf(t, c), 8 - w, 8) + Slice(ValueOf(t, d), 8 - w, 8) == F_BITS + Zeros(2 * w - 8)
    ensures IsEncoding(t, [0x66], text)
  {
    hide IsSymbol, ValueOf, Spread, Slice, Values;
    OneByte();
    TwoSymbols(t, c, d);
    assert text[..2] == [c, d];
  }

  lemma Vector16()
    ensures IsEncoding(B16, [0x66], "66")
  {
    assert ValueOf(B16, '6') == 6;
    assert Slice(6, 4, 8) == [false, true, true, false];
    hide ValueOf, Slice;
    VectorOf(B16, '6', '6', "66");
  }

  lemma Vector32()
    ensures IsEncoding(B32, [0x66], "MY======")
  {
    assert ValueOf(B32, 'M') == 12 && ValueOf(B32, 'Y') == 24;
    assert Slice(12, 3, 8) == [false, true, true, false, false];
    assert Slice(24, 3, 8) == [true, true, false, false, false];
    hide ValueOf, Slice;
    assert [false, true, true, false, false] + [true, true, false, false, false] == F_BITS + Zeros(2);
    VectorOf(B32, 'M', 'Y', "MY======");
  }

  lemma Vector64()
    ensures IsEncoding(B64, [0x66], "Zg==")
  {
    assert ValueOf(B64, 'Z') == 25 && ValueOf(B64, 'g') == 32;
    assert Slice(25, 2, 8) == [false, true, true, false, false, true];
    assert Slice(32, 2, 8) == [true, false, false, false, false, false];
    hide ValueOf, Slice;
    assert [false, true, true, false, false, true] + [true, false, false, false, false, false] == F_BITS + Zeros(4);
    VectorOf(B64, 'Z', 'g', "Zg==");
  }

  /** The encodings of "f" that section 10 of RFC 4648 gives. */
  lemma TestVectors()
    ensures IsEncoding(B16, [0x66], "66") && IsEncoding(B32, [0x66], "MY======") && IsEncoding(B64, [0x66], "Zg==")
  {
    hide IsEncoding;
    Vector16();
    Vector32();
    Vector64();
  }
}
