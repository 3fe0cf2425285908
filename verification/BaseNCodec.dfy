/** The generic encode and decode loops of lib/util/basen.h and what they promise each other. */
module BaseNCodec {
  import opened BaseN

  // ---------------------------------------------------------------- what a text carries

  /** Neither skipped as white space nor rejected by the alphabet. */
  predicate IsSymbol(t: Traits, c: char) {
    !IsSpace(c) && t.DecodeSymbol(c) != ERROR
  }

  lemma NarrowingFits(t: Traits, c: char)
    requires t.DecodeSymbol(c) != ERROR
    ensures t.DecodeSymbol(c) < 256
    ensures var v := t.DecodeSymbol(c) as bv8; Fits(v, t.GroupLength()) && v as nat == t.DecodeSymbol(c)
  {
    hide Traits.DecodeSymbol, Traits.EncodeSymbol, Traits.Dictionary, Fits;
    EncodeOfDecode(t, c);
    FitsIsRange(t, t.DecodeSymbol(c) as bv8);
  }

  function ValueOf(t: Traits, c: char): (v: bv8)
    requires IsSymbol(t, c)
    ensures Fits(v, t.GroupLength()) && v as nat == t.DecodeSymbol(c)
  {
    NarrowingFits(t, c);
    t.DecodeSymbol(c) as bv8
  }

  /** The group values of the alphabet characters of a text, in order. */
  function Values(t: Traits, text: string): (values: seq<bv8>)
    ensures |values| <= |text|
    ensures forall v | v in values :: Fits(v, t.GroupLength())
  {
    if text == "" then []
    else
      var init := Values(t, text[..|text| - 1]);
      var c := text[|text| - 1];
      if IsSymbol(t, c) then init + [ValueOf(t, c)] else init
  }

  lemma ValuesAppend(t: Traits, text: string, c: char)
    ensures IsSymbol(t, c) ==> Values(t, text + [c]) == Values(t, text) + [ValueOf(t, c)]
    ensures !IsSymbol(t, c) ==> Values(t, text + [c]) == Values(t, text)
  {
    assert (text + [c])[..|text|] == text;
    hide IsSymbol, ValueOf;
  }

  // ---------------------------------------------------------------- encoding

  /** Symbols needed to carry `n` bytes: the bits divided by the group length, rounded up. */
  function SymbolCount(t: Traits, n: nat): nat {
    match t
    case B16 => 2 * n
    case B32 => (8 * n + 4) / 5
    case B64 => (8 * n + 5) / 6
  }

  /** The length with '=' padding, sections 8, 6 and 4 of RFC 4648. */
  function PaddedLength(t: Traits, n: nat): nat {
    match t
    case B16 => 2 * n
    case B32 => 8 * ((n + 4) / 5)
    case B64 => 4 * ((n + 2) / 3)
  }

  /** The symbols spell the bytes' bits, zero-extended to a whole group; the rest is padding. */
  ghost predicate IsEncoding(t: Traits, x: seq<bv8>, text: string) {
    var g := t.GroupLength();
    var n := SymbolCount(t, |x|);
    && |text| == PaddedLength(t, |x|) >= n
    && (forall i | 0 <= i < n :: IsSymbol(t, text[i]))
    && (forall i | n <= i < |text| :: text[i] == '=')
    && 8 * |x| <= g * n < 8 * |x| + g
    && Spread(Values(t, text[..n]), g) == Spread(x, 8) + Zeros(g * n - 8 * |x|)
  }

  /** The byte being cut, or the zeros past the end. */
  function ByteAt(x: seq<bv8>, i: nat): bv8 {
    if i < |x| then x[i] else 0
  }

  /** Every bit before `startBit` of byte `iter` has been written out. */
  ghost predicate Written(t: Traits, x: seq<bv8>, iter: nat, startBit: nat, out: string)
  {
    && iter <= |x| && startBit < 8
    && |Values(t, out)| == |out|
    && Spread(Values(t, out), t.GroupLength()) == Spread(x[..iter], 8) + Slice(ByteAt(x, iter), 0, startBit)
  }

  lemma WriteSymbol(t: Traits, out: string, v: bv8)
    requires Fits(v, t.GroupLength()) && v as nat < t.Size()
    requires |Values(t, out)| == |out|
    ensures var next := out + [t.EncodeSymbol(v as nat)];
            |Values(t, next)| == |next| &&
            Spread(Values(t, next), t.GroupLength()) ==
            Spread(Values(t, out), t.GroupLength()) + Slice(v, 8 - t.GroupLength(), 8)
  {
    var c := t.EncodeSymbol(v as nat);
    DecodeOfEncode(t, v as nat);
    ValuesAppend(t, out, c);
    SpreadAppend(Values(t, out), v, t.GroupLength());
    assert ValueOf(t, c) == v;
    hide Slice, Spread, Values;
  }

  lemma Regroup(a: seq<bool>, b: seq<bool>, c: seq<bool>, d: seq<bool>)
    ensures (a + b) + (c + d) == (a + (b + c)) + d
  {
  }

  lemma WriteWithin(t: Traits, x: seq<bv8>, iter: nat, start: nat, out: string)
    requires Written(t, x, iter, start, out) && iter < |x| && start + t.GroupLength() < 8
    ensures var v := ExtractPartialBits(x[iter], start, t.GroupLength());
            v as nat < t.Size() && Written(t, x, iter, start + t.GroupLength(), out + [t.EncodeSymbol(v as nat)])
  {
    hide ExtractPartialBits, Slice, Spread, Values, Fits, Traits.EncodeSymbol, Traits.Dictionary;
    var g := t.GroupLength();
    var v := ExtractPartialBits(x[iter], start, g);
    PartialSlice(x[iter], start, g);
    FitsIsRange(t, v);
    WriteSymbol(t, out, v);
    SliceSplit(x[iter], 0, start, start + g);
    Regroup(Spread(x[..iter], 8), Slice(x[iter], 0, start), Slice(x[iter], start, start + g), []);
  }

  lemma WriteAcross(t: Traits, x: seq<bv8>, iter: nat, start: nat, out: string)
    requires Written(t, x, iter, start, out) && iter < |x| && 8 <= start + t.GroupLength()
    ensures var v := ExtractOverlappingBits(x[iter], ByteAt(x, iter + 1), start, t.GroupLength());
            v as nat < t.Size() &&
            Written(t, x, iter + 1, start + t.GroupLength() - 8, out + [t.EncodeSymbol(v as nat)])
  {
    hide ExtractOverlappingBits, Slice, Spread, Values, Fits, Traits.EncodeSymbol, Traits.Dictionary;
    var g := t.GroupLength();
    var p, n := x[iter], ByteAt(x, iter + 1);
    var v := ExtractOverlappingBits(p, n, start, g);
    OverlappingSlice(p, n, start, g);
    FitsIsRange(t, v);
    WriteSymbol(t, out, v);
    SliceSplit(p, 0, start, 8);
    assert x[..iter] + [x[iter]] == x[..iter + 1];
    SpreadAppend(x[..iter], x[iter], 8);
    Regroup(Spread(x[..iter], 8), Slice(p, 0, start), Slice(p, start, 8), Slice(n, 0, start + g - 8));
  }

  lemma ZeroBit(i: nat)
    requires i < 8
    ensures !BitAt(0, i)
  {
    match i {
      case 0 => case 1 => case 2 => case 3 => case 4 => case 5 => case 6 => case 7 =>
    }
  }

  lemma ZeroSlice(n: nat)
    requires n <= 8
    ensures Slice(0, 0, n) == Zeros(n)
  {
    forall i: nat | i < 8
      ensures !BitAt(0, i)
    {
      ZeroBit(i);
    }
    assert Slice(0, 0, n) == Zeros(n);
  }

  /** Once every byte has been cut, the symbols are those of an encoding. */
  lemma WrittenAll(t: Traits, x: seq<bv8>, start: nat, out: string)
    requires Written(t, x, |x|, start, out) && start < t.GroupLength()
    ensures |out| == SymbolCount(t, |x|) && t.GroupLength() * |out| == 8 * |x| + start
    ensures Spread(Values(t, out), t.GroupLength()) == Spread(x, 8) + Zeros(start)
  {
    hide Values, Zeros, Slice;
    assert x[..|x|] == x && ByteAt(x, |x|) == 0;
    ZeroSlice(start);
    match t
    case B16 =>
    case B32 => assert 5 * |out| == 8 * |x| + start;
    case B64 => assert 6 * |out| == 8 * |x| + start;
  }

  lemma NothingWritten(t: Traits, x: seq<bv8>)
    ensures Written(t, x, 0, 0, "")
  {
  }

  lemma Padded(t: Traits, x: seq<bv8>, start: nat, symbols: string, text: string)
    requires Written(t, x, |x|, start, symbols) && start < t.GroupLength()
    requires |text| == PaddedLength(t, |x|) >= |symbols| && text[..|symbols|] == symbols
    requires forall i | |symbols| <= i < |text| :: text[i] == '='
    ensures IsEncoding(t, x, text)
  {
    WrittenAll(t, x, start, symbols);
    AllSymbols(t, symbols);
    hide Spread, Values, Zeros, IsSymbol, Written, PaddedLength, SymbolCount;
    assert forall i | 0 <= i < |symbols| :: text[i] == text[..|symbols|][i];
  }

  lemma {:induction false} AllSymbols(t: Traits, text: string)
    requires |Values(t, text)| == |text|
    ensures forall i | 0 <= i < |text| :: IsSymbol(t, text[i])
  {
    if text != "" {
      AllSymbols(t, text[..|text| - 1]);
    }
    hide IsSymbol, ValueOf;
  }

  method Encode(t: Traits, x: seq<bv8>) returns (out: string)
    ensures IsEncoding(t, x, out)
  {
    hide Written, IsEncoding, Spread, Values, ExtractPartialBits, ExtractOverlappingBits, Slice, Traits.Dictionary;
    var g := t.GroupLength();
    out := "";
    var iter, startBit, hasBacklog, backlog: bv8 := 0, 0, false, 0;
    NothingWritten(t, x);
    while hasBacklog || iter != |x|
      invariant 0 <= iter <= |x| && 0 <= startBit < 8
      invariant hasBacklog ==> 0 < iter && backlog == x[iter - 1] && 8 <= startBit + g
      invariant Written(t, x, if hasBacklog then iter - 1 else iter, startBit, out)
      invariant !hasBacklog && iter == |x| ==> startBit < g
      decreases |x| - iter, hasBacklog, 8 - startBit
    {
      if !hasBacklog {
        if startBit + g < 8 {
          WriteWithin(t, x, iter, startBit, out);
          var v := ExtractPartialBits(x[iter], startBit, g);
          out := out + [t.EncodeSymbol(v as nat)];
          startBit := startBit + g;
        } else {
          backlog := x[iter];
          iter := iter + 1;
          hasBacklog := true;
        }
      } else {
        WriteAcross(t, x, iter - 1, startBit, out);
        var v: bv8;
        if iter == |x| {
          v := ExtractOverlappingBits(backlog, 0, startBit, g);
        } else {
          v := ExtractOverlappingBits(backlog, x[iter], startBit, g);
        }
        out := out + [t.EncodeSymbol(v as nat)];
        hasBacklog := false;
        startBit := (startBit + g) % 8;
      }
    }
    ghost var symbols := out;
    WrittenAll(t, x, startBit, out);
    out := Pad(t, |x|, startBit, out);
    Padded(t, x, startBit, symbols, out);
  }

  lemma WholeBytes(bits: int, whole: int, rest: nat)
    requires bits == 8 * whole + rest && rest <= 40
    ensures bits % 8 == 0 <==> rest in {0, 8, 16, 24, 32, 40}
  {
    var q, r := rest / 8, rest % 8;
    assert bits == 8 * (whole + q) + r;
  }

  lemma PaddingEnds32(n: nat, k: nat)
    requires (8 * n + 4) / 5 <= k <= 8 * ((n + 4) / 5)
    ensures 5 * k % 8 == 0 <==> k == 8 * ((n + 4) / 5)
  {
    var q := (n + 4) / 5;
    var missing := 8 * q - k;
    assert 0 <= missing <= 6;
    WholeBytes(5 * k, 5 * q - 5, 40 - 5 * missing);
  }

  lemma PaddingEnds64(n: nat, k: nat)
    requires (8 * n + 5) / 6 <= k <= 4 * ((n + 2) / 3)
    ensures 6 * k % 8 == 0 <==> k == 4 * ((n + 2) / 3)
  {
    var q := (n + 2) / 3;
    var missing := 4 * q - k;
    assert 0 <= missing <= 2;
    WholeBytes(6 * k, 3 * q - 3, 24 - 6 * missing);
  }

  /** Of the lengths the padding loop passes through, only the last is a whole number of bytes. */
  lemma PaddingEnds(t: Traits, n: nat, k: nat)
    requires SymbolCount(t, n) <= k <= PaddedLength(t, n)
    ensures t.GroupLength() * k % 8 == 0 <==> k == PaddedLength(t, n)
  {
    match t
    case B16 =>
    case B32 => PaddingEnds32(n, k);
    case B64 => PaddingEnds64(n, k);
  }

  lemma NextStartBit(g: nat, k: nat)
    ensures g * (k + 1) % 8 == (g * k % 8 + g) % 8
  {
    var a := g * k;
    assert g * (k + 1) == a + g;
    assert (a + g) % 8 == (a % 8 + g) % 8;
  }

  lemma PaddingRoom(t: Traits, n: nat)
    ensures SymbolCount(t, n) <= PaddedLength(t, n)
  {
  }

  /** The second loop of the encoder: '=' until the output is a whole number of bytes. */
  method Pad(t: Traits, n: nat, startBit0: nat, symbols: string) returns (out: string)
    requires |symbols| == SymbolCount(t, n) && startBit0 < 8
    requires t.GroupLength() * |symbols| == 8 * n + startBit0
    ensures |out| == PaddedLength(t, n) >= |symbols| && out[..|symbols|] == symbols
    ensures forall i | |symbols| <= i < |out| :: out[i] == '='
  {
    hide PaddedLength, SymbolCount, Traits.GroupLength;
    out := symbols;
    var startBit := startBit0;
    PaddingRoom(t, n);
    while startBit != 0
      invariant |symbols| <= |out| <= PaddedLength(t, n) && out[..|symbols|] == symbols
      invariant forall i | |symbols| <= i < |out| :: out[i] == '='
      invariant startBit == t.GroupLength() * |out| % 8
      decreases PaddedLength(t, n) - |out|
    {
      PaddingEnds(t, n, |out|);
      NextStartBit(t.GroupLength(), |out|);
      out := out + "=";
      startBit := (startBit + t.GroupLength()) % 8;
    }
    PaddingEnds(t, n, |out|);
  }

  // ---------------------------------------------------------------- decoding

  /** The whole bytes that the symbols of the text fill; leftover bits are dropped. */
  ghost predicate IsDecoding(t: Traits, text: string, out: seq<bv8>) {
    var bits := Spread(Values(t, text), t.GroupLength());
    && |out| == |bits| / 8
    && Spread(out, 8) == bits[..8 * |out|]
  }

  /** `buffer` holds the first `filled` bits of the byte after `out`; its other bits are zero. */
  ghost predicate Collected(bits: seq<bool>, out: seq<bv8>, buffer: bv8, filled: nat)
  {
    && filled < 8
    && bits == Spread(out, 8) + Slice(buffer, 0, filled)
    && (forall i | filled <= i < 8 :: !BitAt(buffer, i))
  }

  /** Dropping a value of `g` bits into a byte at bit `filled`. */
  lemma Fill(buffer: bv8, v: bv8, filled: nat, g: nat)
    requires filled + g <= 8 && Fits(v, g)
    requires forall i | filled <= i < 8 :: !BitAt(buffer, i)
    ensures var b := Or(buffer, Shl(v, 8 - filled - g));
            Slice(b, 0, filled + g) == Slice(buffer, 0, filled) + Slice(v, 8 - g, 8) &&
            forall i | filled + g <= i < 8 :: !BitAt(b, i)
  {
    hide BitAt, Or, Shl;
    var s := 8 - filled - g;
    var b := Or(buffer, Shl(v, s));
    forall i: nat | i < 8
      ensures BitAt(b, i) == (BitAt(buffer, i) || (i + s < 8 && BitAt(v, i + s)))
    {
      OrBit(buffer, Shl(v, s), i);
      ShlBit(v, s, i);
    }
    assert Slice(b, 0, filled + g) == Slice(buffer, 0, filled) + Slice(v, 8 - g, 8);
  }

  /** Cutting a value over the end of a byte. */
  lemma Spill(buffer: bv8, v: bv8, filled: nat, g: nat)
    requires filled < 8 < filled + g && g <= 8 && Fits(v, g)
    requires forall i | filled <= i < 8 :: !BitAt(buffer, i)
    ensures var next := filled + g - 8;
            Slice(Or(buffer, Shr(v, next)), 0, 8) == Slice(buffer, 0, filled) + Slice(v, 8 - g, 8 - next)
  {
    hide BitAt, Or, Shr;
    var next := filled + g - 8;
    var b := Or(buffer, Shr(v, next));
    forall i: nat | i < 8
      ensures BitAt(b, i) == (BitAt(buffer, i) || (next <= i && BitAt(v, i - next)))
    {
      OrBit(buffer, Shr(v, next), i);
      ShrBit(v, next, i);
    }
    assert Slice(b, 0, 8) == Slice(buffer, 0, filled) + Slice(v, 8 - g, 8 - next);
  }

  /** The bits of a value left over for the next byte. */
  lemma Leftover(v: bv8, next: nat)
    requires 0 < next < 8
    ensures var b := Or(0, Shl(v, 8 - next));
            Slice(b, 0, next) == Slice(v, 8 - next, 8) && forall i | next <= i < 8 :: !BitAt(b, i)
  {
    hide BitAt, Or, Shl;
    var b := Or(0, Shl(v, 8 - next));
    forall i: nat | i < 8
      ensures BitAt(b, i) == (i + 8 - next < 8 && BitAt(v, i + 8 - next))
    {
      ZeroBit(i);
      OrBit(0, Shl(v, 8 - next), i);
      ShlBit(v, 8 - next, i);
    }
  }

  lemma CollectWithin(bits: seq<bool>, out: seq<bv8>, buffer: bv8, filled: nat, v: bv8, g: nat)
    requires Collected(bits, out, buffer, filled) && filled + g <= 8 && Fits(v, g)
    ensures var b := Or(buffer, Shl(v, 8 - filled - g));
            if filled + g == 8 then Collected(bits + Slice(v, 8 - g, 8), out + [b], 0, 0)
            else Collected(bits + Slice(v, 8 - g, 8), out, b, filled + g)
  {
    hide BitAt, Or, Shl, Slice, Spread, Fits;
    var b := Or(buffer, Shl(v, 8 - filled - g));
    Fill(buffer, v, filled, g);
    Regroup(Spread(out, 8), Slice(buffer, 0, filled), Slice(v, 8 - g, 8), []);
    if filled + g == 8 {
      SpreadAppend(out, b, 8);
      EmptyBuffer(Spread(out + [b], 8));
    }
  }

  lemma EmptyBuffer(a: seq<bool>)
    ensures a == a + Slice(0, 0, 0)
    ensures forall i: nat | i < 8 :: !BitAt(0, i)
  {
    forall i: nat | i < 8
      ensures !BitAt(0, i)
    {
      ZeroBit(i);
    }
  }

  lemma CollectAcross(bits: seq<bool>, out: seq<bv8>, buffer: bv8, filled: nat, v: bv8, g: nat)
    requires Collected(bits, out, buffer, filled) && 8 < filled + g && g <= 8 && Fits(v, g)
    ensures var next := filled + g - 8;
            Collected(bits + Slice(v, 8 - g, 8), out + [Or(buffer, Shr(v, next))], Or(0, Shl(v, 8 - next)), next)
  {
    hide BitAt, Or, Shl, Shr, Slice, Spread, Fits;
    var next := filled + g - 8;
    var b, rest := Or(buffer, Shr(v, next)), Or(0, Shl(v, 8 - next));
    Spill(buffer, v, filled, g);
    Leftover(v, next);
    SpreadAppend(out, b, 8);
    SliceSplit(v, 8 - g, 8 - next, 8);
    Regroup(Spread(out, 8), Slice(buffer, 0, filled), Slice(v, 8 - g, 8 - next), Slice(v, 8 - next, 8));
  }

  /** What has been collected when the text ends is its decoding. */
  lemma CollectedAll(t: Traits, text: string, out: seq<bv8>, buffer: bv8, filled: nat)
    requires Collected(Spread(Values(t, text), t.GroupLength()), out, buffer, filled)
    ensures IsDecoding(t, text, out)
  {
    hide BitAt, Values;
  }

  method Decode(t: Traits, text: string) returns (out: seq<bv8>)
    ensures IsDecoding(t, text, out)
  {
    hide Collected, IsDecoding, Spread, Values, Slice, Or, Shl, Shr, Fits, BitAt, ValueOf;
    var g := t.GroupLength();
    out := [];
    var iter, outputCurrentBit, buffer: bv8 := 0, 0, 0;
    NothingCollected(t);
    while iter != |text|
      invariant 0 <= iter <= |text| && 0 <= outputCurrentBit < 8
      invariant Collected(Spread(Values(t, text[..iter]), g), out, buffer, outputCurrentBit)
    {
      var c := text[iter];
      assert text[..iter + 1] == text[..iter] + [c];
      ValuesAppend(t, text[..iter], c);
      if IsSpace(c) {
        iter := iter + 1;
        continue;
      }
      if t.DecodeSymbol(c) == ERROR {
        // not in the alphabet: skipped
        iter := iter + 1;
        continue;
      }
      var value := ValueOf(t, c);
      SpreadAppend(Values(t, text[..iter]), value, g);
      ghost var bits := Spread(Values(t, text[..iter]), g);
      var bitsInCurrentByte := (if outputCurrentBit + g < 8 then outputCurrentBit + g else 8) - outputCurrentBit;
      if bitsInCurrentByte == g {
        CollectWithin(bits, out, buffer, outputCurrentBit, value, g);
        buffer := Or(buffer, Shl(value, 8 - outputCurrentBit - g));
        outputCurrentBit := outputCurrentBit + g;
        if outputCurrentBit == 8 {
          out := out + [buffer];
          buffer := 0;
          outputCurrentBit := 0;
        }
      } else {
        CollectAcross(bits, out, buffer, outputCurrentBit, value, g);
        var bitsInNextByte := g - bitsInCurrentByte;
        buffer := Or(buffer, Shr(value, bitsInNextByte));
        out := out + [buffer];
        buffer := 0;
        buffer := Or(buffer, Shl(value, 8 - bitsInNextByte));
        outputCurrentBit := bitsInNextByte;
      }
      iter := iter + 1;
    }
    assert text[..iter] == text;
    CollectedAll(t, text, out, buffer, outputCurrentBit);
  }

  lemma NothingCollected(t: Traits)
    ensures Collected(Spread(Values(t, ""), t.GroupLength()), [], 0, 0)
  {
    EmptyBuffer([]);
  }
}
