/** The table-driven CRC of lib/util/crc16.cpp. */
module Crc16 {
  import opened BaseN

  // ---------------------------------------------------------------- the shift register

  function Xor(a: bv16, b: bv16): bv16 { a ^ b }

  function ShiftLeft(c: bv16): bv16 { c << 1 }

  predicate Top(c: bv16) { c & 0x8000 != 0 }

  /** One step of the register for x^16 + x^12 + x^5 + 1. */
  function Shift(c: bv16): bv16 {
    if Top(c) then Xor(ShiftLeft(c), 0x1021) else ShiftLeft(c)
  }

  function Shift8(c: bv16): bv16 {
    Shift(Shift(Shift(Shift(Shift(Shift(Shift(Shift(c))))))))
  }

  // ---------------------------------------------------------------- the table

  /** The 32 rows of `crc16tab`, eight entries each. */
  function TableRow(r: nat): (row: seq<bv16>)
    requires r < 32
    ensures |row| == 8
  {
    match r
    case 0 => [0x0000, 0x1021, 0x2042, 0x3063, 0x4084, 0x50a5, 0x60c6, 0x70e7]
    case 1 => [0x8108, 0x9129, 0xa14a, 0xb16b, 0xc18c, 0xd1ad, 0xe1ce, 0xf1ef]
    case 2 => [0x1231, 0x0210, 0x3273, 0x2252, 0x52b5, 0x4294, 0x72f7, 0x62d6]
    case 3 => [0x9339, 0x8318, 0xb37b, 0xa35a, 0xd3bd, 0xc39c, 0xf3ff, 0xe3de]
    case 4 => [0x2462, 0x3443, 0x0420, 0x1401, 0x64e6, 0x74c7, 0x44a4, 0x5485]
    case 5 => [0xa56a, 0xb54b, 0x8528, 0x9509, 0xe5ee, 0xf5cf, 0xc5ac, 0xd58d]
    case 6 => [0x3653, 0x2672, 0x1611, 0x0630, 0x76d7, 0x66f6, 0x5695, 0x46b4]
    case 7 => [0xb75b, 0xa77a, 0x9719, 0x8738, 0xf7df, 0xe7fe, 0xd79d, 0xc7bc]
    case 8 => [0x48c4, 0x58e5, 0x6886, 0x78a7, 0x0840, 0x1861, 0x2802, 0x3823]
    case 9 => [0xc9cc, 0xd9ed, 0xe98e, 0xf9af, 0x8948, 0x9969, 0xa90a, 0xb92b]
    case 10 => [0x5af5, 0x4ad4, 0x7ab7, 0x6a96, 0x1a71, 0x0a50, 0x3a33, 0x2a12]
    case 11 => [0xdbfd, 0xcbdc, 0xfbbf, 0xeb9e, 0x9b79, 0x8b58, 0xbb3b, 0xab1a]
    case 12 => [0x6ca6, 0x7c87, 0x4ce4, 0x5cc5, 0x2c22, 0x3c03, 0x0c60, 0x1c41]
    case 13 => [0xedae, 0xfd8f, 0xcdec, 0xddcd, 0xad2a, 0xbd0b, 0x8d68, 0x9d49]
    case 14 => [0x7e97, 0x6eb6, 0x5ed5, 0x4ef4, 0x3e13, 0x2e32, 0x1e51, 0x0e70]
    case 15 => [0xff9f, 0xefbe, 0xdfdd, 0xcffc, 0xbf1b, 0xaf3a, 0x9f59, 0x8f78]
    case 16 => [0x9188, 0x81a9, 0xb1ca, 0xa1eb, 0xd10c, 0xc12d, 0xf14e, 0xe16f]
    case 17 => [0x1080, 0x00a1, 0x30c2, 0x20e3, 0x5004, 0x4025, 0x7046, 0x6067]
    case 18 => [0x83b9, 0x9398, 0xa3fb, 0xb3da, 0xc33d, 0xd31c, 0xe37f, 0xf35e]
    case 19 => [0x02b1, 0x1290, 0x22f3, 0x32d2, 0x4235, 0x5214, 0x6277, 0x7256]
    case 20 => [0xb5ea, 0xa5cb, 0x95a8, 0x8589, 0xf56e, 0xe54f, 0xd52c, 0xc50d]
    case 21 => [0x34e2, 0x24c3, 0x14a0, 0x0481, 0x7466, 0x6447, 0x5424, 0x4405]
    case 22 => [0xa7db, 0xb7fa, 0x8799, 0x97b8, 0xe75f, 0xf77e, 0xc71d, 0xd73c]
    case 23 => [0x26d3, 0x36f2, 0x0691, 0x16b0, 0x6657, 0x7676, 0x4615, 0x5634]
    case 24 => [0xd94c, 0xc96d, 0xf90e, 0xe92f, 0x99c8, 0x89e9, 0xb98a, 0xa9ab]
    case 25 => [0x5844, 0x4865, 0x7806, 0x6827, 0x18c0, 0x08e1, 0x3882, 0x28a3]
    case 26 => [0xcb7d, 0xdb5c, 0xeb3f, 0xfb1e, 0x8bf9, 0x9bd8, 0xabbb, 0xbb9a]
    case 27 => [0x4a75, 0x5a54, 0x6a37, 0x7a16, 0x0af1, 0x1ad0, 0x2ab3, 0x3a92]
    case 28 => [0xfd2e, 0xed0f, 0xdd6c, 0xcd4d, 0xbdaa, 0xad8b, 0x9de8, 0x8dc9]
    case 29 => [0x7c26, 0x6c07, 0x5c64, 0x4c45, 0x3ca2, 0x2c83, 0x1ce0, 0x0cc1]
    case 30 => [0xef1f, 0xff3e, 0xcf5d, 0xdf7c, 0xaf9b, 0xbfba, 0x8fd9, 0x9ff8]
    case 31 => [0x6e17, 0x7e36, 0x4e55, 0x5e74, 0x2e93, 0x3eb2, 0x0ed1, 0x1ef0]
  }

  function Table(index: nat): bv16
    requires index < 256
  {
    TableRow(index / 8)[index % 8]
  }

  /** Eight register steps on a byte in the register's high half. */
  function Entry(n: nat): bv16
    requires n < 256
  {
    Shift8((n as bv16) << 8)
  }

  predicate RowChecks(row: seq<bv16>, first: nat)
    requires first <= 248
  {
    && |row| == 8
    && row[0] == Entry(first) && row[1] == Entry(first + 1)
    && row[2] == Entry(first + 2) && row[3] == Entry(first + 3)
    && row[4] == Entry(first + 4) && row[5] == Entry(first + 5)
    && row[6] == Entry(first + 6) && row[7] == Entry(first + 7)
  }

  lemma Rows0()
    ensures RowChecks(TableRow(0), 0x00)
    ensures RowChecks(TableRow(1), 0x08)
  {
  }

  lemma Rows1()
    ensures RowChecks(TableRow(2), 0x10)
    ensures RowChecks(TableRow(3), 0x18)
  {
  }

  lemma Rows2()
    ensures RowChecks(TableRow(4), 0x20)
    ensures RowChecks(TableRow(5), 0x28)
  {
  }

  lemma Rows3()
    ensures RowChecks(TableRow(6), 0x30)
    ensures RowChecks(TableRow(7), 0x38)
  {
  }

  lemma Rows4()
    ensures RowChecks(TableRow(8), 0x40)
    ensures RowChecks(TableRow(9), 0x48)
  {
  }

  lemma Rows5()
    ensures RowChecks(TableRow(10), 0x50)
    ensures RowChecks(TableRow(11), 0x58)
  {
  }

  lemma Rows6()
    ensures RowChecks(TableRow(12), 0x60)
    ensures RowChecks(TableRow(13), 0x68)
  {
  }

  lemma Rows7()
    ensures RowChecks(TableRow(14), 0x70)
    ensures RowChecks(TableRow(15), 0x78)
  {
  }

  lemma Rows8()
    ensures RowChecks(TableRow(16), 0x80)
    ensures RowChecks(TableRow(17), 0x88)
  {
  }

  lemma Rows9()
    ensures RowChecks(TableRow(18), 0x90)
    ensures RowChecks(TableRow(19), 0x98)
  {
  }

  lemma RowsA()
    ensures RowChecks(TableRow(20), 0xa0)
    ensures RowChecks(TableRow(21), 0xa8)
  {
  }

  lemma RowsB()
    ensures RowChecks(TableRow(22), 0xb0)
    ensures RowChecks(TableRow(23), 0xb8)
  {
  }

  lemma RowsC()
    ensures RowChecks(TableRow(24), 0xc0)
    ensures RowChecks(TableRow(25), 0xc8)
  {
  }

  lemma RowsD()
    ensures RowChecks(TableRow(26), 0xd0)
    ensures RowChecks(TableRow(27), 0xd8)
  {
  }

  lemma RowsE()
    ensures RowChecks(TableRow(28), 0xe0)
    ensures RowChecks(TableRow(29), 0xe8)
  {
  }

  lemma RowsF()
    ensures RowChecks(TableRow(30), 0xf0)
    ensures RowChecks(TableRow(31), 0xf8)
  {
  }

  lemma RowsMatch(r: nat)
    requires r < 32
    ensures RowChecks(TableRow(r), 8 * r)
  {
    hide RowChecks, TableRow;
    if r < 2 {
      Rows0();
    } else if r < 4 {
      Rows1();
    } else if r < 6 {
      Rows2();
    } else if r < 8 {
      Rows3();
    } else if r < 10 {
      Rows4();
    } else if r < 12 {
      Rows5();
    } else if r < 14 {
      Rows6();
    } else if r < 16 {
      Rows7();
    } else if r < 18 {
      Rows8();
    } else if r < 20 {
      Rows9();
    } else if r < 22 {
      RowsA();
    } else if r < 24 {
      RowsB();
    } else if r < 26 {
      RowsC();
    } else if r < 28 {
      RowsD();
    } else if r < 30 {
      RowsE();
    } else {
      RowsF();
    }
  }

  /** Every table entry is eight register steps applied to its index. */
  lemma TableIsShift8(n: nat)
    requires n < 256
    ensures Table(n) == Entry(n)
  {
    hide TableRow, Entry;
    var r, k := n / 8, n % 8;
    RowsMatch(r);
    assert n == 8 * r + k;
  }

  // ---------------------------------------------------------------- the register over a bit string

  function XorBit(c: bv16, bit: bool): bv16 {
    if bit then Xor(c, 0x8000) else c
  }

  /** The register after the message bits have been shifted in, most significant first. */
  function Remainder(c: bv16, bits: seq<bool>): bv16 {
    if bits == [] then c else Shift(XorBit(Remainder(c, bits[..|bits| - 1]), bits[|bits| - 1]))
  }

  lemma RemainderAppend(c: bv16, bits: seq<bool>, bit: bool)
    ensures Remainder(c, bits + [bit]) == Shift(XorBit(Remainder(c, bits), bit))
  {
    assert (bits + [bit])[..|bits|] == bits;
  }

  /** The checksum of a message, bit by bit. */
  function Crc(message: seq<bv8>): bv16 {
    Remainder(0, Spread(message, 8))
  }

  lemma {:induction false} RemainderConcat(c: bv16, a: seq<bool>, b: seq<bool>)
    ensures Remainder(c, a + b) == Remainder(Remainder(c, a), b)
  {
    hide Shift, XorBit;
    if b == [] {
      assert a + b == a;
    } else {
      var init, last := b[..|b| - 1], b[|b| - 1];
      RemainderConcat(c, a, init);
      assert a + b == (a + init) + [last] && b == init + [last];
      RemainderAppend(c, a + init, last);
      RemainderAppend(Remainder(c, a), init, last);
    }
  }

  // ---------------------------------------------------------------- linearity

  lemma XorAssociates(a: bv16, b: bv16, c: bv16)
    ensures Xor(Xor(a, b), c) == Xor(a, Xor(b, c))
  {
  }

  lemma XorCommutes(a: bv16, b: bv16)
    ensures Xor(a, b) == Xor(b, a)
  {
  }

  lemma XorCancels(a: bv16, b: bv16)
    ensures Xor(Xor(a, b), b) == a && Xor(a, 0) == a && Xor(a, a) == 0
    ensures Xor(a, b) == 0 ==> a == b
  {
  }

  lemma XorExchange(a: bv16, b: bv16, c: bv16, d: bv16)
    ensures Xor(Xor(a, b), Xor(c, d)) == Xor(Xor(a, c), Xor(b, d))
  {
    XorAssociates(a, b, Xor(c, d));
    XorAssociates(b, c, d);
    XorCommutes(b, c);
    XorAssociates(c, b, d);
    XorAssociates(a, c, Xor(b, d));
    hide Xor;
  }

  lemma TopOfXor(a: bv16, b: bv16)
    ensures Top(Xor(a, b)) == (Top(a) != Top(b))
  {
  }

  lemma ShiftLeftOfXor(a: bv16, b: bv16)
    ensures ShiftLeft(Xor(a, b)) == Xor(ShiftLeft(a), ShiftLeft(b))
  {
  }

  /** The feedback word of one step. */
  function Feedback(c: bv16): bv16 {
    if Top(c) then 0x1021 else 0
  }

  lemma ShiftIsFeedback(c: bv16)
    ensures Shift(c) == Xor(ShiftLeft(c), Feedback(c))
  {
    XorCancels(ShiftLeft(c), 0);
    hide Top;
  }

  /** The register step is linear. */
  lemma ShiftOfXor(a: bv16, b: bv16)
    ensures Shift(Xor(a, b)) == Xor(Shift(a), Shift(b))
  {
    hide Xor, Top, Shift, ShiftLeft;
    ShiftIsFeedback(a);
    ShiftIsFeedback(b);
    ShiftIsFeedback(Xor(a, b));
    ShiftLeftOfXor(a, b);
    TopOfXor(a, b);
    XorCancels(0x1021, 0);
    XorCancels(0, 0x1021);
    XorCommutes(0, 0x1021);
    assert Feedback(Xor(a, b)) == Xor(Feedback(a), Feedback(b));
    XorExchange(ShiftLeft(a), Feedback(a), ShiftLeft(b), Feedback(b));
  }

  lemma ShiftKernel(c: bv16)
    requires Shift(c) == 0
    ensures c == 0
  {
  }

  /** The register step loses nothing. */
  lemma ShiftInjective(a: bv16, b: bv16)
    requires Shift(a) == Shift(b)
    ensures a == b
  {
    hide Xor, Shift;
    ShiftOfXor(a, b);
    XorCancels(Shift(a), 0);
    ShiftKernel(Xor(a, b));
    XorCancels(a, b);
  }

  lemma Shift8OfXor(a: bv16, b: bv16)
    ensures Shift8(Xor(a, b)) == Xor(Shift8(a), Shift8(b))
  {
    hide Xor, Shift;
    var a1, b1 := Shift(a), Shift(b);
    var a2, b2 := Shift(a1), Shift(b1);
    var a3, b3 := Shift(a2), Shift(b2);
    var a4, b4 := Shift(a3), Shift(b3);
    var a5, b5 := Shift(a4), Shift(b4);
    var a6, b6 := Shift(a5), Shift(b5);
    var a7, b7 := Shift(a6), Shift(b6);
    ShiftOfXor(a, b);
    ShiftOfXor(a1, b1);
    ShiftOfXor(a2, b2);
    ShiftOfXor(a3, b3);
    ShiftOfXor(a4, b4);
    ShiftOfXor(a5, b5);
    ShiftOfXor(a6, b6);
    ShiftOfXor(a7, b7);
  }

  // ---------------------------------------------------------------- up to sixteen bits at once

  function Shifts(c: bv16, n: nat): bv16
    decreases n
  {
    if n == 0 then c else Shifts(Shift(c), n - 1)
  }

  lemma {:induction false} ShiftsOfXor(a: bv16, b: bv16, n: nat)
    ensures Shifts(Xor(a, b), n) == Xor(Shifts(a, n), Shifts(b, n))
    decreases n
  {
    hide Xor, Shift;
    if n > 0 {
      ShiftOfXor(a, b);
      ShiftsOfXor(Shift(a), Shift(b), n - 1);
    }
  }

  lemma {:induction false} ShiftsInjective(a: bv16, b: bv16, n: nat)
    requires Shifts(a, n) == Shifts(b, n)
    ensures a == b
    decreases n
  {
    hide Shift;
    if n > 0 {
      ShiftsInjective(Shift(a), Shift(b), n - 1);
      ShiftInjective(a, b);
    }
  }

  lemma {:induction false} ShiftAfterShifts(c: bv16, n: nat)
    ensures Shift(Shifts(c, n)) == Shifts(c, n + 1)
    decreases n
  {
    hide Shift;
    if n > 0 {
      ShiftAfterShifts(Shift(c), n - 1);
    }
  }

  /** The register with only bit `k` set, counting from the top. */
  function One(k: nat): bv16
    requires k < 16
  {
    match k
    case 0 => 0x8000
    case 1 => 0x4000
    case 2 => 0x2000
    case 3 => 0x1000
    case 4 => 0x0800
    case 5 => 0x0400
    case 6 => 0x0200
    case 7 => 0x0100
    case 8 => 0x0080
    case 9 => 0x0040
    case 10 => 0x0020
    case 11 => 0x0010
    case 12 => 0x0008
    case 13 => 0x0004
    case 14 => 0x0002
    case 15 => 0x0001
  }

  predicate Has(c: bv16, k: nat)
    requires k < 16
  {
    Meets(c, One(k))
  }

  predicate Meets(c: bv16, mask: bv16) { c & mask != 0 }

  lemma OneIsPower(k: nat)
    requires k < 16
    ensures var m := One(k); m != 0 && m & (m - 1) == 0
  {
  }

  lemma MaskOfXor(a: bv16, b: bv16, m: bv16)
    requires m != 0 && m & (m - 1) == 0
    ensures (a ^ b) & m != 0 <==> ((a & m != 0) != (b & m != 0))
  {
  }

  lemma HasOfXor(a: bv16, b: bv16, k: nat)
    requires k < 16
    ensures Has(Xor(a, b), k) == (Has(a, k) != Has(b, k))
  {
    OneIsPower(k);
    MaskOfXor(a, b, One(k));
    hide One;
  }

  lemma HasOfOne(j: nat, k: nat)
    requires j < 16 && k < 16
    ensures Has(One(j), k) == (j == k)
  {
    match j {
      case 0 => case 1 => case 2 => case 3 => case 4 => case 5 => case 6 => case 7 =>
      case 8 => case 9 => case 10 => case 11 => case 12 => case 13 => case 14 => case 15 =>
    }
  }

  lemma HasOfZero(k: nat)
    requires k < 16
    ensures !Has(0, k)
  {
    match k {
      case 0 => case 1 => case 2 => case 3 => case 4 => case 5 => case 6 => case 7 =>
      case 8 => case 9 => case 10 => case 11 => case 12 => case 13 => case 14 => case 15 =>
    }
  }

  lemma HasDetermines(a: bv16, b: bv16)
    requires forall k: nat | k < 16 :: Has(a, k) == Has(b, k)
    ensures a == b
  {
    hide Has, One;
    assert Has(a, 0) == Has(b, 0) && Has(a, 1) == Has(b, 1) && Has(a, 2) == Has(b, 2) && Has(a, 3) == Has(b, 3);
    assert Has(a, 4) == Has(b, 4) && Has(a, 5) == Has(b, 5) && Has(a, 6) == Has(b, 6) && Has(a, 7) == Has(b, 7);
    assert Has(a, 8) == Has(b, 8) && Has(a, 9) == Has(b, 9) && Has(a, 10) == Has(b, 10) && Has(a, 11) == Has(b, 11);
    assert Has(a, 12) == Has(b, 12) && Has(a, 13) == Has(b, 13) && Has(a, 14) == Has(b, 14) && Has(a, 15) == Has(b, 15);
    SixteenBits(a, b);
  }

  lemma SixteenBits(a: bv16, b: bv16)
    requires Has(a, 0) == Has(b, 0) && Has(a, 1) == Has(b, 1) && Has(a, 2) == Has(b, 2) && Has(a, 3) == Has(b, 3)
    requires Has(a, 4) == Has(b, 4) && Has(a, 5) == Has(b, 5) && Has(a, 6) == Has(b, 6) && Has(a, 7) == Has(b, 7)
    requires Has(a, 8) == Has(b, 8) && Has(a, 9) == Has(b, 9) && Has(a, 10) == Has(b, 10) && Has(a, 11) == Has(b, 11)
    requires Has(a, 12) == Has(b, 12) && Has(a, 13) == Has(b, 13) &&
             Has(a, 14) == Has(b, 14) && Has(a, 15) == Has(b, 15)
    ensures a == b
  {
  }

  lemma ShiftOfOne(k: nat)
    requires 0 < k < 16
    ensures Shift(One(k)) == One(k - 1)
  {
  }

  /** Bit `k` needs `k` steps to reach the top. */
  lemma {:induction false} OneReachesTop(k: nat)
    requires k < 16
    ensures Shifts(One(k), k) == 0x8000
  {
    if k > 0 {
      ShiftOfOne(k);
      OneReachesTop(k - 1);
    }
    hide Shift;
  }

  /** Up to sixteen bits, placed from the top of a register. */
  function Load(bits: seq<bool>): bv16
    requires |bits| <= 16
  {
    if bits == [] then 0
    else
      var n := |bits| - 1;
      var c := Load(bits[..n]);
      if bits[n] then Xor(c, One(n)) else c
  }

  /** The loaded register holds the bits, then zeros. */
  lemma {:induction false} LoadHas(bits: seq<bool>, k: nat)
    requires |bits| <= 16 && k < 16
    ensures Has(Load(bits), k) == (k < |bits| && bits[k])
  {
    hide Xor, Has, One;
    if bits == [] {
      HasOfZero(k);
    } else {
      var n := |bits| - 1;
      LoadHas(bits[..n], k);
      HasOfXor(Load(bits[..n]), One(n), k);
      HasOfOne(n, k);
    }
  }

  lemma LoadInjective(a: seq<bool>, b: seq<bool>)
    requires |a| == |b| <= 16 && Load(a) == Load(b)
    ensures a == b
  {
    forall k: nat | k < |a|
      ensures a[k] == b[k]
    {
      LoadHas(a, k);
      LoadHas(b, k);
    }
  }

  /** Sixteen bits or fewer can be loaded at once and then shifted through. */
  lemma {:induction false} RemainderIsLoad(c: bv16, bits: seq<bool>)
    requires |bits| <= 16
    ensures Remainder(c, bits) == Shifts(Xor(c, Load(bits)), |bits|)
  {
    hide Xor, One, Shift;
    if bits == [] {
      XorCancels(c, 0);
    } else {
      var n, last := |bits| - 1, bits[|bits| - 1];
      var x := Xor(c, Load(bits[..n]));
      RemainderIsLoad(c, bits[..n]);
      ShiftAfterShifts(Xor(c, Load(bits)), n);
      if last {
        OneReachesTop(n);
        ShiftsOfXor(x, One(n), n);
        XorAssociates(c, Load(bits[..n]), One(n));
      }
    }
  }

  // ---------------------------------------------------------------- one byte per step

  function ByteMask(i: nat): bv8
    requires i < 8
  {
    match i
    case 0 => 0x80
    case 1 => 0x40
    case 2 => 0x20
    case 3 => 0x10
    case 4 => 0x08
    case 5 => 0x04
    case 6 => 0x02
    case 7 => 0x01
  }

  lemma BitAtIsMask(a: bv8, i: nat)
    requires i < 8
    ensures BitAt(a, i) == (a & ByteMask(i) != 0)
    ensures ByteMask(i) != 0 && ByteMask(i) & (ByteMask(i) - 1) == 0
  {
    match i {
      case 0 => case 1 => case 2 => case 3 => case 4 => case 5 => case 6 => case 7 =>
    }
  }

  lemma HighMask(b: bv8, m: bv8)
    ensures Meets((b as bv16) << 8, (m as bv16) << 8) <==> b & m != 0
  {
  }

  lemma LowMask(b: bv8, m: bv16)
    requires m < 256
    ensures !Meets((b as bv16) << 8, m)
  {
  }

  lemma OneIsByteMask(k: nat)
    requires k < 16
    ensures if k < 8 then One(k) == (ByteMask(k) as bv16) << 8 else One(k) < 256
  {
  }

  lemma ByteHas(b: bv8, k: nat)
    requires k < 16
    ensures Has((b as bv16) << 8, k) == (k < 8 && BitAt(b, k))
  {
    OneIsByteMask(k);
    if k < 8 {
      BitAtIsMask(b, k);
      HighMask(b, ByteMask(k));
    } else {
      LowMask(b, One(k));
    }
    hide One, Meets, BitAt, ByteMask;
  }

  lemma LoadByte(b: bv8)
    ensures Load(Slice(b, 0, 8)) == (b as bv16) << 8
  {
    forall k: nat | k < 16
      ensures Has(Load(Slice(b, 0, 8)), k) == Has((b as bv16) << 8, k)
    {
      LoadHas(Slice(b, 0, 8), k);
      ByteHas(b, k);
    }
    HasDetermines(Load(Slice(b, 0, 8)), (b as bv16) << 8);
  }

  function TableIndex(crc: bv16, b: bv8): bv16 {
    ((crc >> 8) ^ (b as bv16)) & 0x00FF
  }

  lemma IndexInTable(crc: bv16, b: bv8)
    ensures TableIndex(crc, b) as nat < 256
    ensures (TableIndex(crc, b) as nat) as bv16 == TableIndex(crc, b)
  {
  }

  /** The low half of the register moves up unchanged; the high half goes through the table. */
  lemma SplitHalves(crc: bv16, b: bv8)
    ensures Xor(crc, (b as bv16) << 8) == Xor(crc & 0xFF, TableIndex(crc, b) << 8)
  {
  }

  lemma LowHalfShifts(crc: bv16)
    ensures Shift8(crc & 0xFF) == crc << 8
  {
  }

  lemma Shift8IsShifts(c: bv16)
    ensures Shifts(c, 8) == Shift8(c)
  {
    var c4 := Shift(Shift(Shift(Shift(c))));
    assert Shifts(c, 8) == Shifts(c4, 4);
    hide Shift;
  }

  /** One table step is eight steps of the register. */
  lemma TableStep(crc: bv16, b: bv8)
    ensures var i := TableIndex(crc, b) as nat;
            i < 256 && Xor((crc << 8) & 0xFFFF, Table(i)) == Remainder(crc, Slice(b, 0, 8))
  {
    hide Xor, Shift8, Table, Slice, TableIndex, Load, Shifts;
    var i := TableIndex(crc, b);
    IndexInTable(crc, b);
    TableIsShift8(i as nat);
    SplitHalves(crc, b);
    Shift8OfXor(crc & 0xFF, i << 8);
    LowHalfShifts(crc);
    RemainderIsLoad(crc, Slice(b, 0, 8));
    LoadByte(b);
    Shift8IsShifts(Xor(crc, (b as bv16) << 8));
    assert (crc << 8) & 0xFFFF == crc << 8;
  }

  lemma {:induction false} CrcAppend(message: seq<bv8>, b: bv8)
    ensures Crc(message + [b]) == Remainder(Crc(message), Slice(b, 0, 8))
  {
    hide Remainder, Slice, Spread;
    SpreadAppend(message, b, 8);
    RemainderConcat(0, Spread(message, 8), Slice(b, 0, 8));
  }

  method Crc16(buf: array<bv8>, len: int) returns (crc: bv16)
    requires len <= buf.Length
    ensures crc == Crc(if len <= 0 then [] else buf[..len])
  {
    hide Crc, Table, TableIndex;
    crc := 0;
    EmptyCrc();
    var counter := 0;
    while counter < len
      invariant 0 <= counter && (counter <= len || counter == 0)
      invariant crc == Crc(buf[..counter])
    {
      TableStep(crc, buf[counter]);
      assert buf[..counter + 1] == buf[..counter] + [buf[counter]];
      CrcAppend(buf[..counter], buf[counter]);
      crc := Xor((crc << 8) & 0xFFFF, Table(TableIndex(crc, buf[counter]) as nat));
      counter := counter + 1;
    }
  }

  lemma EmptyCrc()
    ensures Crc([]) == 0
  {
  }

  lemma NextByte(message: seq<bv8>, b: bv8, next: seq<bv8>, before: bv16, after: bv16)
    requires Crc(message) == before && Shift8(Xor(before, (b as bv16) << 8)) == after
    requires next == message + [b]
    ensures Crc(next) == after
  {
    hide Crc, Shift8, Load, Slice, Shifts, Xor;
    CrcAppend(message, b);
    RemainderIsLoad(before, Slice(b, 0, 8));
    LoadByte(b);
    Shift8IsShifts(Xor(before, (b as bv16) << 8));
  }

  /** The check value the source's comment gives for "123456789". */
  lemma KnownAnswer()
    ensures Crc([0x31, 0x32, 0x33, 0x34, 0x35, 0x36, 0x37, 0x38, 0x39]) == 0x31C3
  {
    hide Crc;
    EmptyCrc();
    NextByte([], 0x31, [0x31], 0x0000, 0x2672);
    NextByte([0x31], 0x32, [0x31, 0x32], 0x2672, 0x20b5);
    NextByte([0x31, 0x32], 0x33, [0x31, 0x32, 0x33], 0x20b5, 0x9752);
    NextByte([0x31, 0x32, 0x33], 0x34, [0x31, 0x32, 0x33, 0x34], 0x9752, 0xd789);
    NextByte([0x31, 0x32, 0x33, 0x34], 0x35, [0x31, 0x32, 0x33, 0x34, 0x35], 0xd789, 0x546c);
    NextByte([0x31, 0x32, 0x33, 0x34, 0x35], 0x36, [0x31, 0x32, 0x33, 0x34, 0x35, 0x36], 0x546c, 0x20e4);
    NextByte([0x31, 0x32, 0x33, 0x34, 0x35, 0x36], 0x37, [0x31, 0x32, 0x33, 0x34, 0x35, 0x36, 0x37], 0x20e4, 0x86d6);
    NextByte([0x31, 0x32, 0x33, 0x34, 0x35, 0x36, 0x37], 0x38,
             [0x31, 0x32, 0x33, 0x34, 0x35, 0x36, 0x37, 0x38], 0x86d6, 0x9015);
    NextByte([0x31, 0x32, 0x33, 0x34, 0x35, 0x36, 0x37, 0x38], 0x39,
             [0x31, 0x32, 0x33, 0x34, 0x35, 0x36, 0x37, 0x38, 0x39], 0x9015, 0x31c3);
  }
}
