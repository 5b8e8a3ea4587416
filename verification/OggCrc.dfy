/**
  The Ogg checksum: a 32-bit CRC with polynomial 0x04C11DB7, not reflected, start
  and final value 0 (section 6 of RFC 3533). The program computes it a byte at a
  time from a table; here that is the same as feeding every bit of the message
  through the shift register, most significant bit first. A `uint32` is its 32
  bits, most significant first.
 */
module OggCrc {
  type Byte = b: int | 0 <= b < 256

  type Word = w: seq<bool> | |w| == 32 witness seq(32, _ => false)

  // Bits and numbers ------------------------------------------------------------

  function Number(bits: seq<bool>): (n: nat)
    decreases |bits|
  {
    if bits == [] then 0 else 2 * Number(bits[..|bits| - 1]) + if bits[|bits| - 1] then 1 else 0
  }

  function Bits(n: nat, width: nat): (bits: seq<bool>)
    ensures |bits| == width
    decreases width
  {
    if width == 0 then [] else Bits(n / 2, width - 1) + [n % 2 == 1]
  }

  lemma {:induction false} BitsOfNumber(bits: seq<bool>)
    ensures Bits(Number(bits), |bits|) == bits
    decreases |bits|
  {
    if bits != [] {
      BitsOfNumber(bits[..|bits| - 1]);
      assert bits == bits[..|bits| - 1] + [bits[|bits| - 1]];
    }
  }

  function Power2(n: nat): (p: nat)
    ensures p > 0
  {
    if n == 0 then 1 else 2 * Power2(n - 1)
  }

  lemma {:induction false} NumberIsSmall(bits: seq<bool>)
    ensures Number(bits) < Power2(|bits|)
    decreases |bits|
  {
    if bits != [] {
      NumberIsSmall(bits[..|bits| - 1]);
    }
  }

  lemma {:induction false} LeadingZeros(bits: seq<bool>, zeros: nat)
    requires zeros <= |bits| && forall i :: 0 <= i < zeros ==> !bits[i]
    ensures Number(bits) == Number(bits[zeros..])
    decreases |bits|
  {
    if zeros < |bits| {
      LeadingZeros(bits[..|bits| - 1], zeros);
      assert bits[..|bits| - 1][zeros..] == bits[zeros..][..|bits| - zeros - 1];
    } else if bits != [] {
      LeadingZeros(bits[..|bits| - 1], zeros - 1);
    }
  }

  // Words ---------------------------------------------------------------------

  function Xor(a: Word, b: Word): (w: Word)
  {
    seq(32, i requires 0 <= i < 32 => a[i] != b[i])
  }

  function ShiftLeft(w: Word, n: nat): Word
    requires n <= 32
  {
    w[n..] + seq(n, _ => false)
  }

  function ShiftRight(w: Word, n: nat): Word
    requires n <= 32
  {
    seq(n, _ => false) + w[..32 - n]
  }

  function ByteWord(b: Byte): Word
  {
    seq(24, _ => false) + Bits(b, 8)
  }

  /** 0x04C11DB7. */
  function Polynomial(): Word
  {
    Bits(0x04C1_1DB7, 32)
  }

  // The definition: one message bit at a time -----------------------------------

  function Feed(crc: Word, bit: bool): Word
  {
    if crc[0] != bit then Xor(ShiftLeft(crc, 1), Polynomial()) else ShiftLeft(crc, 1)
  }

  function FeedAll(crc: Word, bits: seq<bool>): Word
    decreases |bits|
  {
    if bits == [] then crc else FeedAll(Feed(crc, bits[0]), bits[1..])
  }

  function CrcFrom(crc: Word, data: seq<Byte>): Word
    decreases |data|
  {
    if data == [] then crc else CrcFrom(FeedAll(crc, Bits(data[0], 8)), data[1..])
  }

  function Zero(): Word
  {
    seq(32, _ => false)
  }

  function Crc(data: seq<Byte>): Word
  {
    CrcFrom(Zero(), data)
  }

  // The table ---------------------------------------------------------------------

  function Shift(r: Word): Word
  {
    if r[0] then Xor(ShiftLeft(r, 1), Polynomial()) else ShiftLeft(r, 1)
  }

  function Shifts(r: Word, n: nat): Word
    decreases n, r
  {
    if n == 0 then r else Shifts(Shift(r), n - 1)
  }

  function TableEntry(i: Byte): Word
  {
    Shifts(TopByte(i), 8)
  }

  function TopByte(i: Byte): Word
  {
    ShiftLeft(ByteWord(i), 24)
  }

  ghost predicate IsTable(table: seq<seq<bool>>)
  {
    |table| == 256 && forall i :: 0 <= i < 256 ==> table[i] == TableEntry(i)
  }

  lemma ShiftIsLinear(x: Word, y: Word)
    ensures Shift(Xor(x, y)) == Xor(Shift(x), Shift(y))
  {
  }

  lemma {:induction false} ShiftsAreLinear(x: Word, y: Word, n: nat)
    ensures Shifts(Xor(x, y), n) == Xor(Shifts(x, n), Shifts(y, n))
    decreases n
  {
    if n > 0 {
      ShiftIsLinear(x, y);
      ShiftsAreLinear(Shift(x), Shift(y), n - 1);
    }
  }

  lemma ShiftLeftTwice(w: Word, n: nat)
    requires 0 < n <= 32
    ensures ShiftLeft(ShiftLeft(w, 1), n - 1) == ShiftLeft(w, n)
  {
  }

  /** While only zeros reach the top, shifting is just shifting. */
  lemma {:induction false} ShiftsOfLowBits(r: Word, n: nat)
    requires n <= 32 && forall i :: 0 <= i < n ==> !r[i]
    ensures Shifts(r, n) == ShiftLeft(r, n)
    decreases n
  {
    if n > 0 {
      ShiftsOfLowBits(ShiftLeft(r, 1), n - 1);
      ShiftLeftTwice(r, n);
    }
  }

  lemma FeedIsShift(crc: Word, word: Word)
    ensures Shift(Xor(crc, word)) == Xor(Feed(crc, word[0]), ShiftLeft(word, 1))
  {
  }

  lemma {:induction false} FeedAllIsShifts(crc: Word, word: Word, n: nat)
    requires n <= 32
    ensures Shifts(Xor(crc, word), n) == Xor(FeedAll(crc, word[..n]), ShiftLeft(word, n))
    decreases n
  {
    if n > 0 {
      FeedIsShift(crc, word);
      FeedAllIsShifts(Feed(crc, word[0]), ShiftLeft(word, 1), n - 1);
      assert ShiftLeft(word, 1)[..n - 1] == word[..n][1..];
      ShiftLeftTwice(word, n);
    } else {
      assert word[..0] == [];
    }
  }

  function Index(crc: Word, b: Byte): Word
  {
    Xor(ShiftRight(crc, 24), ByteWord(b))
  }

  lemma IndexIsAByte(crc: Word, b: Byte)
    ensures Number(Index(crc, b)) < 256
    ensures ByteWord(Number(Index(crc, b))) == Index(crc, b)
  {
    var index := Index(crc, b);
    assert Power2(8) == 256 by {
      assert Power2(4) == 16;
    }
    LeadingZeros(index, 24);
    NumberIsSmall(index[24..]);
    BitsOfNumber(index[24..]);
  }

  lemma XorLaws(a: Word, b: Word)
    ensures Xor(a, b) == Xor(b, a) && Xor(a, Zero()) == a
  {
  }

  lemma SplitTop(crc: Word, b: Byte)
    ensures Xor(crc, ShiftLeft(ByteWord(b), 24)) == Xor(ShiftLeft(Index(crc, b), 24), seq(8, _ => false) + crc[8..])
  {
  }

  /** One table step is eight bits fed in. */
  lemma TableStep(crc: Word, b: Byte)
    ensures FeedAll(crc, Bits(b, 8)) == Xor(ShiftLeft(crc, 8), Shifts(ShiftLeft(Index(crc, b), 24), 8))
  {
    var word := ShiftLeft(ByteWord(b), 24);
    var high := ShiftLeft(Index(crc, b), 24);
    var low := seq(8, _ => false) + crc[8..];
    FeedAllIsShifts(crc, word, 8);
    assert word[..8] == Bits(b, 8) && ShiftLeft(word, 8) == Zero();
    XorLaws(FeedAll(crc, word[..8]), Zero());
    SplitTop(crc, b);
    ShiftsAreLinear(high, low, 8);
    ShiftsOfLowBits(low, 8);
    assert ShiftLeft(low, 8) == ShiftLeft(crc, 8);
    XorLaws(Shifts(high, 8), ShiftLeft(crc, 8));
  }

  lemma {:induction false} CrcFromAppend(crc: Word, data: seq<Byte>, b: Byte)
    ensures CrcFrom(crc, data + [b]) == FeedAll(CrcFrom(crc, data), Bits(b, 8))
    decreases |data|
  {
    if data == [] {
      assert [] + [b] == [b] && [b][1..] == [];
    } else {
      assert (data + [b])[1..] == data[1..] + [b];
      CrcFromAppend(FeedAll(crc, Bits(data[0], 8)), data[1..], b);
    }
  }

  method ShiftOnce(r: Word) returns (shifted: Word)
    ensures shifted == Shift(r)
  {
    if r[0] {
      shifted := Xor(ShiftLeft(r, 1), Polynomial());
    } else {
      shifted := ShiftLeft(r, 1);
    }
  }

  method MakeEntry(i: Byte) returns (r: Word)
    ensures r == TableEntry(i)
  {
    r := TopByte(i);
    ghost var entry := TableEntry(i);
    var left := 8;
    while left > 0
      invariant Shifts(r, left) == entry
    {
      assert Shifts(Shift(r), left - 1) == entry;
      r := ShiftOnce(r);
      left := left - 1;
    }
  }

  ghost predicate Filled(table: seq<seq<bool>>, n: nat)
  {
    |table| == 256 && forall i :: 0 <= i < n && i < 256 ==> table[i] == TableEntry(i)
  }

  lemma FilledOneMore(table: seq<seq<bool>>, n: nat, entry: seq<bool>)
    requires n < 256 && Filled(table, n) && entry == TableEntry(n)
    ensures Filled(table[n := entry], n + 1)
  {
  }

  /** Fills the 256 entries, each by eight shifts. */
  method MakeTable() returns (table: array<seq<bool>>)
    ensures fresh(table) && IsTable(table[..])
  {
    table := new seq<bool>[256];
    var i := 0;
    while i < 256
      invariant i <= 256 && Filled(table[..], i)
    {
      var entry := MakeEntry(i);
      ghost var before := table[..];
      table[i] := entry;
      FilledOneMore(before, i, entry);
      i := i + 1;
    }
  }

  lemma TableByte(data: seq<Byte>, i: nat)
    requires i < |data|
    ensures var index := Number(Index(Crc(data[..i]), data[i]));
      index < 256 && Crc(data[..i + 1]) == Xor(ShiftLeft(Crc(data[..i]), 8), TableEntry(index))
  {
    var crc := Crc(data[..i]);
    IndexIsAByte(crc, data[i]);
    TableStep(crc, data[i]);
    CrcFromAppend(Zero(), data[..i], data[i]);
    assert data[..i] + [data[i]] == data[..i + 1];
  }

  /** The table-driven checksum is the bit-by-bit one, and every index it looks up is in the table. */
  method OggCrc32(table: array<seq<bool>>, data: seq<Byte>) returns (crc: Word)
    requires IsTable(table[..])
    ensures crc == Crc(data)
  {
    crc := Zero();
    assert data[..0] == [];
    for i := 0 to |data|
      invariant crc == Crc(data[..i])
    {
      TableByte(data, i);
      var index := Number(Index(crc, data[i]));
      assert table[..][index] == TableEntry(index);
      crc := Xor(ShiftLeft(crc, 8), table[index]);
    }
    assert data[..|data|] == data;
  }

  // Which polynomial it is -------------------------------------------------------------

  lemma {:induction false} NumberOfBits(n: nat, width: nat)
    requires n < Power2(width)
    ensures Number(Bits(n, width)) == n
    decreases width
  {
    if width > 0 {
      NumberOfBits(n / 2, width - 1);
      assert Bits(n, width)[..width - 1] == Bits(n / 2, width - 1);
    }
  }

  lemma Power2Of32()
    ensures Power2(32) == 0x1_0000_0000
  {
    assert Power2(8) == 256;
    assert Power2(16) == 256 * Power2(8);
    assert Power2(24) == 256 * Power2(16);
    assert Power2(32) == 256 * Power2(24);
  }

  /** Zeros leave an empty register empty. */
  lemma {:induction false} ZerosFeedNothing(bits: seq<bool>, last: bool)
    requires forall i :: 0 <= i < |bits| ==> !bits[i]
    ensures FeedAll(Zero(), bits + [last]) == Feed(Zero(), last)
    decreases |bits|
  {
    if bits == [] {
      assert bits + [last] == [last] && [last][1..] == [];
    } else {
      assert (bits + [last])[1..] == bits[1..] + [last];
      assert Feed(Zero(), false) == Zero();
      ZerosFeedNothing(bits[1..], last);
    }
  }

  /** The checksum of the one byte 1 is the polynomial itself: 0x04C11DB7. */
  lemma OneIsThePolynomial()
    ensures Number(Crc([1])) == 0x04C1_1DB7
  {
    assert Bits(1, 8) == Bits(0, 7) + [true];
    ZeroBits(7);
    ZerosFeedNothing(Bits(0, 7), true);
    XorLaws(Polynomial(), Zero());
    assert ShiftLeft(Zero(), 1) == Zero();
    assert [1][1..] == [];
    var one: seq<Byte> := [1];
    assert Crc(one) == Polynomial();
    Power2Of32();
    NumberOfBits(0x04C1_1DB7, 32);
  }

  lemma {:induction false} ZeroBits(width: nat)
    ensures forall i :: 0 <= i < width ==> !Bits(0, width)[i]
  {
    if width > 0 {
      ZeroBits(width - 1);
    }
  }
}
