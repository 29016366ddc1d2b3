/** The table-driven CRC-32 of crc.cc against the division it stands for (section 3.2.9 of
    IEEE 802.3): complement the first 32 bits of the message, append 32 zero bits, divide by
    the generator and complement the remainder. */
module Crc {

  /** A 32-bit word. */
  datatype Word = Word(bits: bv32)

  const ZERO := Word(0)
  const ONES := Word(0xffff_ffff)
  const POLY := Word(0x04c1_1db7)
  const TOP := Word(0x8000_0000)

  function Xor(a: Word, b: Word): Word {
    Word(a.bits ^ b.bits)
  }

  function Shl(a: Word): Word {
    Word(a.bits << 1)
  }

  function Shl8(a: Word): Word {
    Word(a.bits << 8)
  }

  predicate TopBit(a: Word) {
    a.bits & 0x8000_0000 != 0
  }

  /** A byte in the top bits of a word. */
  function AtTop(b: bv8): Word {
    Word((b as bv32) << 24)
  }

  predicate ByteTop(b: bv8) {
    b & 0x80 != 0
  }

  function ByteShl(b: bv8): bv8 {
    b << 1
  }

  lemma XorLaws(a: Word, b: Word, c: Word)
    ensures Xor(a, b) == Xor(b, a) && Xor(Xor(a, b), c) == Xor(a, Xor(b, c)) && Xor(a, ZERO) == a && Xor(a, a) == ZERO
  {
    hide Xor;
    XorCommutes(a, b);
    XorAssociates(a, b, c);
    XorZero(a);
    XorSelf(a);
  }

  lemma XorCommutes(a: Word, b: Word)
    ensures Xor(a, b) == Xor(b, a)
  {
  }

  lemma XorZero(a: Word)
    ensures Xor(a, ZERO) == a
  {
  }

  lemma XorSelf(a: Word)
    ensures Xor(a, a) == ZERO
  {
  }

  lemma XorAssociates(a: Word, b: Word, c: Word)
    ensures Xor(Xor(a, b), c) == Xor(a, Xor(b, c))
  {
  }

  lemma ShlXor(a: Word, b: Word)
    ensures Shl(Xor(a, b)) == Xor(Shl(a), Shl(b)) && (TopBit(Xor(a, b)) <==> TopBit(a) != TopBit(b))
  {
    hide Xor, Shl, TopBit;
    XorOfShls(a, b);
    XorOfTops(a, b);
  }

  lemma XorOfShls(a: Word, b: Word)
    ensures Shl(Xor(a, b)) == Xor(Shl(a), Shl(b))
  {
  }

  lemma XorOfTops(a: Word, b: Word)
    ensures TopBit(Xor(a, b)) == (TopBit(a) != TopBit(b))
  {
    hide Xor, TopBit;
    if TopBit(a) {
      if TopBit(b) { BothTops(a, b); } else { OneTop(a, b); }
    } else {
      if TopBit(b) { OneTop(b, a); XorCommutes(a, b); } else { NoTops(a, b); }
    }
  }

  lemma BothTops(a: Word, b: Word)
    requires TopBit(a) && TopBit(b)
    ensures !TopBit(Xor(a, b))
  {
  }

  lemma OneTop(a: Word, b: Word)
    requires TopBit(a) && !TopBit(b)
    ensures TopBit(Xor(a, b))
  {
  }

  lemma NoTops(a: Word, b: Word)
    requires !TopBit(a) && !TopBit(b)
    ensures !TopBit(Xor(a, b))
  {
  }

  lemma TopFacts(b: bv8)
    ensures Shl(TOP) == ZERO && TopBit(TOP) && Shl(AtTop(b)) == AtTop(ByteShl(b)) && (TopBit(AtTop(b)) <==> ByteTop(b))
  {
  }

  // ------------------------------------------------------------------- the shift register

  /** One turn of the inner loop of init_crc32. */
  function Shift(c: Word): Word {
    if TopBit(c) then Xor(Shl(c), POLY) else Shl(c)
  }

  function Shifts(c: Word, n: nat): Word
    decreases n
  {
    if n == 0 then c else Shifts(Shift(c), n - 1)
  }

  /** The register takes in one message bit. */
  function TakeBit(c: Word, bit: bool): Word {
    Shift(if bit then Xor(c, TOP) else c)
  }

  function TakeBits(c: Word, bits: seq<bool>): Word
    decreases |bits|
  {
    if bits == [] then c else TakeBits(TakeBit(c, bits[0]), bits[1..])
  }

  /** The n top bits of a byte. */
  function ByteBits(b: bv8, n: nat): (r: seq<bool>)
    ensures |r| == n
    decreases n
  {
    if n == 0 then [] else [ByteTop(b)] + ByteBits(ByteShl(b), n - 1)
  }

  function MessageBits(buf: seq<bv8>): (r: seq<bool>)
    ensures |r| == 8 * |buf|
  {
    if buf == [] then [] else ByteBits(buf[0], 8) + MessageBits(buf[1..])
  }

  lemma ShiftLinear(a: Word, b: Word)
    ensures Shift(Xor(a, b)) == Xor(Shift(a), Shift(b))
  {
    hide Xor, Shl, TopBit;
    ShlXor(a, b);
    var x, y, p := Shl(a), Shl(b), POLY;
    XorLaws(x, y, p);
    XorLaws(x, p, y);
    XorLaws(p, y, ZERO);
    XorLaws(Xor(x, p), y, p);
    XorLaws(Xor(x, y), p, p);
    XorLaws(p, p, ZERO);
  }

  lemma {:induction false} ShiftsLinear(a: Word, b: Word, n: nat)
    ensures Shifts(Xor(a, b), n) == Xor(Shifts(a, n), Shifts(b, n))
    decreases n
  {
    hide Xor, Shift;
    if n > 0 {
      ShiftLinear(a, b);
      ShiftsLinear(Shift(a), Shift(b), n - 1);
    }
  }

  // -------------------------------------------------------------------------- the table

  function TableEntry(i: bv32): Word {
    Shifts(Word(i << 24), 8)
  }

  /** The table is linear over exclusive or. */
  lemma TableLinear(i: bv32, j: bv32)
    ensures TableEntry(i ^ j) == Xor(TableEntry(i), TableEntry(j))
  {
    hide Shifts;
    ShiftsLinear(Word(i << 24), Word(j << 24), 8);
    TopByteXor(i, j);
  }

  lemma TopByteXor(i: bv32, j: bv32)
    ensures Word((i ^ j) << 24) == Xor(Word(i << 24), Word(j << 24))
  {
  }

  function ByteShls(b: bv8, n: nat): bv8
    decreases n
  {
    if n == 0 then b else ByteShls(ByteShl(b), n - 1)
  }

  lemma OneBit(c: Word, b: bv8)
    ensures Shift(Xor(c, AtTop(b))) == Xor(TakeBit(c, ByteTop(b)), AtTop(ByteShl(b)))
  {
    hide Xor, Shl, TopBit, AtTop, ByteTop, ByteShl;
    TopFacts(b);
    ShlXor(c, AtTop(b));
    ShlXor(c, TOP);
    XorLaws(Shl(c), AtTop(ByteShl(b)), POLY);
    XorLaws(Shl(c), POLY, AtTop(ByteShl(b)));
    XorLaws(AtTop(ByteShl(b)), POLY, ZERO);
    XorLaws(POLY, AtTop(ByteShl(b)), ZERO);
  }

  /** Taking in bits of a byte one by one is shifting with the whole byte at the top. */
  lemma {:induction false} TakeByteBits(c: Word, b: bv8, n: nat)
    ensures Shifts(Xor(c, AtTop(b)), n) == Xor(TakeBits(c, ByteBits(b, n)), AtTop(ByteShls(b, n)))
    decreases n
  {
    hide Shift, TakeBit, AtTop, Xor, ByteTop, ByteShl;
    if n > 0 {
      OneBit(c, b);
      TakeByteBits(TakeBit(c, ByteTop(b)), ByteShl(b), n - 1);
      assert ByteBits(b, n)[1..] == ByteBits(ByteShl(b), n - 1);
    }
  }

  lemma NothingLeft(b: bv8)
    ensures AtTop(ByteShls(b, 8)) == ZERO
  {
    hide ByteShl, AtTop;
    var b4 := ByteShl(ByteShl(ByteShl(ByteShl(b))));
    FourByteShls(b, 8);
    FourByteShls(b4, 4);
    ByteGone(b);
  }

  lemma FourByteShls(b: bv8, n: nat)
    requires n >= 4
    ensures ByteShls(b, n) == ByteShls(ByteShl(ByteShl(ByteShl(ByteShl(b)))), n - 4)
  {
    hide ByteShl;
    assert ByteShls(b, n) == ByteShls(ByteShl(b), n - 1);
    assert ByteShls(ByteShl(b), n - 1) == ByteShls(ByteShl(ByteShl(b)), n - 2);
    assert ByteShls(ByteShl(ByteShl(b)), n - 2) == ByteShls(ByteShl(ByteShl(ByteShl(b))), n - 3);
  }

  lemma ByteGone(b: bv8)
    ensures var b4 := ByteShl(ByteShl(ByteShl(ByteShl(b)))); AtTop(ByteShl(ByteShl(ByteShl(ByteShl(b4))))) == ZERO
  {
  }

  lemma FourShifts(c: Word, n: nat)
    requires n >= 4 && !TopBit(c) && !TopBit(Shl(c)) && !TopBit(Shl(Shl(c))) && !TopBit(Shl(Shl(Shl(c))))
    ensures Shifts(c, n) == Shifts(Shl(Shl(Shl(Shl(c)))), n - 4)
  {
    hide TopBit, Shl;
    assert Shifts(c, n) == Shifts(Shl(c), n - 1);
    assert Shifts(Shl(c), n - 1) == Shifts(Shl(Shl(c)), n - 2);
    assert Shifts(Shl(Shl(c)), n - 2) == Shifts(Shl(Shl(Shl(c))), n - 3);
  }

  function Low(c: Word): Word {
    Word(c.bits & 0x00ff_ffff)
  }

  lemma LowTops(c: Word)
    ensures var d := Low(c); !TopBit(d) && !TopBit(Shl(d)) && !TopBit(Shl(Shl(d))) && !TopBit(Shl(Shl(Shl(d))))
    ensures var d := Shl(Shl(Shl(Shl(Low(c)))));
            !TopBit(d) && !TopBit(Shl(d)) && !TopBit(Shl(Shl(d))) && !TopBit(Shl(Shl(Shl(d))))
  {
  }

  lemma LowShls(c: Word)
    ensures var d := Shl(Shl(Shl(Shl(Low(c))))); Shl(Shl(Shl(Shl(d)))) == Shl8(c)
  {
  }

  /** As long as the top bits are zero, the register only shifts. */
  lemma LowShifts(c: Word)
    ensures Shifts(Low(c), 8) == Shl8(c)
  {
    hide TopBit, Shl, Shl8, Low;
    LowTops(c);
    LowShls(c);
    FourShifts(Low(c), 8);
    FourShifts(Shl(Shl(Shl(Shl(Low(c))))), 4);
  }

  /** The index into the table: the top byte of the register, with the message byte. */
  function TableIndex(c: Word, b: bv8): bv32 {
    (c.bits >> 24) ^ (b as bv32)
  }

  /** The loop body of crc32. */
  function ByteStep(c: Word, b: bv8): Word {
    Xor(Shl8(c), TableEntry(TableIndex(c, b)))
  }

  lemma TopAndLow(c: Word, b: bv8)
    ensures Xor(c, AtTop(b)) == Xor(Word(TableIndex(c, b) << 24), Low(c)) && TableIndex(c, b) < 256
  {
  }

  /** One table lookup does the work of eight bits. */
  lemma ByteStepTakesBits(c: Word, b: bv8)
    ensures ByteStep(c, b) == TakeBits(c, ByteBits(b, 8))
  {
    hide Shifts, ByteBits, TakeBits, ByteShls, AtTop, Xor, Shl8, Low, TableIndex;
    TakeByteBits(c, b, 8);
    NothingLeft(b);
    var top := Word(TableIndex(c, b) << 24);
    TopAndLow(c, b);
    ShiftsLinear(top, Low(c), 8);
    LowShifts(c);
    XorLaws(Shl8(c), Shifts(top, 8), ZERO);
    XorLaws(TakeBits(c, ByteBits(b, 8)), ZERO, ZERO);
  }

  lemma {:induction false} TakeBitsJoin(c: Word, s: seq<bool>, t: seq<bool>)
    ensures TakeBits(c, s + t) == TakeBits(TakeBits(c, s), t)
    decreases |s|
  {
    hide TakeBit;
    if s == [] {
      assert s + t == t;
    } else {
      assert (s + t)[1..] == s[1..] + t;
      TakeBitsJoin(TakeBit(c, s[0]), s[1..], t);
    }
  }

  // -------------------------------------------------------------------------- the program

  /** The table has either not been built, and is all zeros, or it is complete. */
  ghost predicate TableOk(table: seq<Word>, built: bool) {
    && |table| == 256
    && if built then forall x: bv32 :: x < 256 ==> table[x as int] == TableEntry(x)
       else forall k :: 0 <= k < 256 ==> table[k] == ZERO
  }

  /** The test for an unbuilt table. */
  lemma SecondEntryTells(table: seq<Word>, built: bool)
    requires TableOk(table, built)
    ensures |table| == 256 && (table[1] == ZERO <==> !built)
  {
    if built {
      hide TableEntry;
      var x: bv32 := 1;
      assert table[x as int] == TableEntry(x);
      SecondEntry();
    }
  }

  lemma SecondEntry()
    ensures TableEntry(1) == POLY
  {
    var c := Word(1 << 24);
    FirstTops();
    hide TopBit, Shl;
    FourShifts(c, 8);
    var d := Shl(Shl(Shl(Shl(c))));
    assert Shifts(d, 4) == Shifts(Shl(d), 3);
    assert Shifts(Shl(d), 3) == Shifts(Shl(Shl(d)), 2);
    assert Shifts(Shl(Shl(d)), 2) == Shifts(Shl(Shl(Shl(d))), 1);
    XorLaws(ZERO, POLY, ZERO);
    XorLaws(POLY, ZERO, ZERO);
  }

  lemma FirstTops()
    ensures var c := Word(1 << 24); !TopBit(c) && !TopBit(Shl(c)) && !TopBit(Shl(Shl(c))) && !TopBit(Shl(Shl(Shl(c))))
    ensures var d := Shl(Shl(Shl(Shl(Word(1 << 24)))));
            !TopBit(d) && !TopBit(Shl(d)) && !TopBit(Shl(Shl(d))) && TopBit(Shl(Shl(Shl(d))))
            && Shl(Shl(Shl(Shl(d)))) == ZERO
  {
  }

  class Crc {
    const table: array<Word>
    ghost var built: bool

    ghost predicate Valid()
      reads this, table
    {
      TableOk(table[..], built)
    }

    constructor ()
      ensures Valid() && fresh(table) && !built
    {
      table := new Word[256](_ => ZERO);
      built := false;
    }

    method InitCrc32()
      requires table.Length == 256
      modifies this, table
      ensures Valid() && built
    {
      hide Shift;
      for i := 0 to 256
        invariant forall x: bv32 :: x < 256 && (x as int) < i ==> table[x as int] == TableEntry(x)
      {
        var c := Word((i as bv32) << 24);
        for j := 8 downto 0
          invariant Shifts(c, j) == TableEntry(i as bv32)
        {
          c := Shift(c);
        }
        table[i] := c;
      }
      built := true;
    }

    /** The first call, and no other, builds the table: the test of its second entry finds out.
        The result is what the shift register makes of the bits of the buffer. */
    method Crc32(buf: seq<bv8>) returns (r: Word)
      requires Valid()
      modifies this, table
      ensures Valid() && built && (old(built) ==> table[..] == old(table[..]))
      ensures r == Xor(TakeBits(ONES, MessageBits(buf)), ONES)
    {
      hide TableEntry, TakeBits, MessageBits, Shl8, Xor, TableIndex;
      SecondEntryTells(table[..], built);
      if table[1] == ZERO {
        InitCrc32();
      }
      var crc := ONES;
      NoBits(crc);
      assert buf[..0] == [];
      for k := 0 to |buf|
        invariant crc == TakeBits(ONES, MessageBits(buf[..k]))
        modifies {}
      {
        ByteStepTakesBits(crc, buf[k]);
        OneMoreByte(buf, k);
        TakeBitsJoin(ONES, MessageBits(buf[..k]), ByteBits(buf[k], 8));
        TopAndLow(crc, buf[k]);
        var x := TableIndex(crc, buf[k]);
        crc := Xor(Shl8(crc), table[x as int]);
      }
      assert buf[..|buf|] == buf;
      return Xor(crc, ONES);
    }
  }

  lemma NoBits(c: Word)
    ensures MessageBits([]) == [] && TakeBits(c, []) == c
  {
  }

  lemma {:induction false} OneMoreByte(buf: seq<bv8>, k: nat)
    requires k < |buf|
    ensures MessageBits(buf[..k + 1]) == MessageBits(buf[..k]) + ByteBits(buf[k], 8)
    decreases |buf|
  {
    hide ByteBits;
    if k == 0 {
      assert buf[..1][1..] == [];
    } else {
      OneMoreByte(buf[1..], k - 1);
      assert buf[..k + 1][1..] == buf[1..][..k] && buf[..k][1..] == buf[1..][..k - 1];
    }
  }

  // -------------------------------------------------------------------------- the division

  /** The n top bits of a word. */
  function Bits(c: Word, n: nat): (r: seq<bool>)
    ensures |r| == n
    decreases n
  {
    if n == 0 then [] else [TopBit(c)] + Bits(Shl(c), n - 1)
  }

  function Constant(bit: bool, n: nat): (r: seq<bool>)
    ensures |r| == n && forall i :: 0 <= i < n ==> r[i] == bit
  {
    seq(n, _ => bit)
  }

  /** s with exclusive or of f into its front */
  function XorFront(s: seq<bool>, f: seq<bool>): (r: seq<bool>)
    requires |f| <= |s|
    ensures |r| == |s| && forall i :: 0 <= i < |s| ==> r[i] == if i < |f| then s[i] != f[i] else s[i]
  {
    seq(|s|, i requires 0 <= i < |s| => if i < |f| then s[i] != f[i] else s[i])
  }

  /** The powers of x below 32 in the generator of IEEE 802.3. */
  const EXPONENTS: set<nat> := {26, 23, 22, 16, 12, 11, 10, 8, 7, 5, 4, 2, 1, 0}

  /** The coefficients behind the leading one, highest first. */
  function Generator(): (r: seq<bool>)
    ensures |r| == 32 && forall i :: 0 <= i < 32 ==> r[i] == (31 - i in EXPONENTS)
  {
    seq(32, i requires 0 <= i < 32 => 31 - i in EXPONENTS)
  }

  /** The next four bits. */
  lemma Nibble(c: Word, n: nat, bits: seq<bool>, d: Word)
    requires |bits| == 4 && TopBit(c) == bits[0] && TopBit(Shl(c)) == bits[1] && TopBit(Shl(Shl(c))) == bits[2]
    requires TopBit(Shl(Shl(Shl(c)))) == bits[3] && Shl(Shl(Shl(Shl(c)))) == d
    ensures Bits(c, n + 4) == bits + Bits(d, n)
  {
    hide TopBit, Shl, Bits;
    BitFirst(c, n + 3);
    BitFirst(Shl(c), n + 2);
    BitFirst(Shl(Shl(c)), n + 1);
    BitFirst(Shl(Shl(Shl(c))), n);
  }

  lemma BitFirst(c: Word, n: nat)
    ensures Bits(c, n + 1) == [TopBit(c)] + Bits(Shl(c), n)
  {
  }

  lemma GeneratorIsPoly()
    ensures Bits(POLY, 32) == Generator()
  {
    hide Bits, Generator;
    Nibble(Word(0x04c1_1db7), 28, [false, false, false, false], Word(0x4c11_db70));
    Nibble(Word(0x4c11_db70), 24, [false, true, false, false], Word(0xc11d_b700));
    Nibble(Word(0xc11d_b700), 20, [true, true, false, false], Word(0x11db_7000));
    Nibble(Word(0x11db_7000), 16, [false, false, false, true], Word(0x1db7_0000));
    Nibble(Word(0x1db7_0000), 12, [false, false, false, true], Word(0xdb70_0000));
    Nibble(Word(0xdb70_0000), 8, [true, true, false, true], Word(0xb700_0000));
    Nibble(Word(0xb700_0000), 4, [true, false, true, true], Word(0x7000_0000));
    Nibble(Word(0x7000_0000), 0, [false, true, true, true], Word(0));
    NoBitsLeft();
    GeneratorBits();
  }

  lemma NoBitsLeft()
    ensures Bits(Word(0), 0) == []
  {
  }

  lemma GeneratorBits()
    ensures Generator() ==
            [false, false, false, false] + ([false, true, false, false] + ([true, true, false, false] + ([false, false, false, true]
            + ([false, false, false, true] + ([true, true, false, true] + ([true, false, true, true] + [false, true, true, true]))))))
  {
  }

  /** Long division by the generator. */
  function Remainder(s: seq<bool>): (r: seq<bool>)
    requires |s| >= 32
    ensures |r| == 32
    decreases |s|
  {
    if |s| == 32 then s
    else Remainder(if s[0] then XorFront(s[1..], Generator()) else s[1..])
  }

  lemma {:induction false} BitsXor(a: Word, b: Word, n: nat)
    ensures Bits(Xor(a, b), n) == XorFront(Bits(a, n), Bits(b, n))
    decreases n
  {
    hide Xor, Shl, TopBit;
    if n > 0 {
      ShlXor(a, b);
      BitsXor(Shl(a), Shl(b), n - 1);
    }
  }

  function Shls(c: Word, n: nat): Word
    decreases n
  {
    if n == 0 then c else Shls(Shl(c), n - 1)
  }

  lemma {:induction false} BitsNext(c: Word, n: nat)
    ensures Bits(c, n + 1) == Bits(c, n) + [TopBit(Shls(c, n))]
    decreases n
  {
    hide Shl, TopBit;
    if n > 0 {
      BitsNext(Shl(c), n - 1);
    }
  }

  lemma FourShls(c: Word, n: nat)
    requires n >= 4
    ensures Shls(c, n) == Shls(Shl(Shl(Shl(Shl(c)))), n - 4)
  {
    hide Shl;
    assert Shls(c, n) == Shls(Shl(c), n - 1);
    assert Shls(Shl(c), n - 1) == Shls(Shl(Shl(c)), n - 2);
    assert Shls(Shl(Shl(c)), n - 2) == Shls(Shl(Shl(Shl(c))), n - 3);
  }

  lemma EightShls(c: Word, n: nat)
    requires n >= 8
    ensures Shls(c, n) == Shls(Shl8(c), n - 8)
  {
    hide Shl, Shl8;
    FourShls(c, n);
    FourShls(Shl(Shl(Shl(Shl(c)))), n - 4);
    EightIsEight(c);
  }

  lemma EightIsEight(c: Word)
    ensures var d := Shl(Shl(Shl(Shl(c)))); Shl(Shl(Shl(Shl(d)))) == Shl8(c)
    ensures Shl8(Shl8(Shl8(Shl8(c)))) == ZERO && !TopBit(ZERO)
  {
  }

  lemma BitsOneOn(c: Word, n: nat)
    ensures Bits(Shl(c), n + 1) == Bits(c, n + 1)[1..] + [TopBit(Shls(c, n + 1))]
  {
    hide TopBit, Shl;
    BitsNext(Shl(c), n);
  }

  lemma AllShiftedOut(c: Word, n: nat)
    requires n == 32
    ensures !TopBit(Shls(c, n))
  {
    hide TopBit, Shl, Shl8;
    EightShls(c, n);
    EightShls(Shl8(c), n - 8);
    EightShls(Shl8(Shl8(c)), n - 16);
    EightShls(Shl8(Shl8(Shl8(c))), n - 24);
    EightIsEight(c);
  }

  /** Shifting left drops the top bit and brings in a zero. */
  lemma BitsShifted(c: Word)
    ensures Bits(Shl(c), 32) == Bits(c, 32)[1..] + [false]
  {
    hide TopBit, Shl, Bits, Shls;
    BitsOneOn(c, 31);
    AllShiftedOut(c, 32);
  }

  lemma TakeBitIs(c: Word, bit: bool)
    ensures TakeBit(c, bit) == if bit != TopBit(c) then Xor(Shl(c), POLY) else Shl(c)
  {
    hide Xor, Shl, TopBit;
    ShlXor(c, TOP);
    TopFacts(0);
    XorLaws(Shl(c), ZERO, ZERO);
  }

  /** One message bit: the register does one step of the division. */
  lemma DivisionStep(c: Word, m: seq<bool>)
    requires m != []
    ensures var s := XorFront(m + Constant(false, 32), Bits(c, 32));
            XorFront(m[1..] + Constant(false, 32), Bits(TakeBit(c, m[0]), 32)) ==
            if s[0] then XorFront(s[1..], Generator()) else s[1..]
  {
    hide Xor, Shl, TakeBit, TopBit, Bits, Generator;
    GeneratorIsPoly();
    TakeBitIs(c, m[0]);
    BitsShifted(c);
    BitsXor(Shl(c), POLY, 32);
    FirstBit(c);
  }

  lemma FirstBit(c: Word)
    ensures Bits(c, 32)[0] == TopBit(c)
  {
    hide TopBit, Shl;
  }

  /** The register's contents after the message are the remainder of the division. */
  lemma {:induction false} RegisterDivides(c: Word, m: seq<bool>)
    ensures Remainder(XorFront(m + Constant(false, 32), Bits(c, 32))) == Bits(TakeBits(c, m), 32)
    decreases |m|
  {
    hide TakeBit, Bits;
    if m == [] {
      assert XorFront([] + Constant(false, 32), Bits(c, 32)) == Bits(c, 32);
    } else {
      DivisionStep(c, m);
      RegisterDivides(TakeBit(c, m[0]), m[1..]);
    }
  }

  /** What crc32 returns for a buffer is the complement of the remainder that the standard
      asks for. */
  lemma CrcIsRemainder(buf: seq<bv8>, r: Word)
    requires r == Xor(TakeBits(ONES, MessageBits(buf)), ONES)
    ensures Bits(r, 32) ==
            XorFront(Remainder(XorFront(MessageBits(buf) + Constant(false, 32), Constant(true, 32))), Constant(true, 32))
  {
    hide MessageBits, TakeBits, Bits, Xor;
    RegisterDivides(ONES, MessageBits(buf));
    AllOnes();
    BitsXor(TakeBits(ONES, MessageBits(buf)), ONES, 32);
  }

  /** Complementing twice changes nothing, so the bits of all ones are ones. */
  lemma AllOnes()
    ensures Bits(ONES, 32) == Constant(true, 32)
  {
    hide Shl, TopBit;
    OnesTops();
    var c1 := Word(0xffff_ff00);
    var c2 := Word(0xffff_0000);
    var c3 := Word(0xff00_0000);
    EightOnes(ONES, 32);
    EightOnes(c1, 24);
    EightOnes(c2, 16);
    EightOnes(c3, 8);
  }

  lemma EightOnes(c: Word, n: nat)
    requires n >= 8 && EightTops(c)
    ensures Bits(c, n) == Constant(true, 8) + Bits(Shl8(c), n - 8)
  {
    hide TopBit, Shl, Shl8;
    EightIsEight(c);
    FourBits(c, n);
    FourBits(Shl(Shl(Shl(Shl(c)))), n - 4);
  }

  predicate EightTops(c: Word) {
    var d := Shl(Shl(Shl(Shl(c))));
    && TopBit(c) && TopBit(Shl(c)) && TopBit(Shl(Shl(c))) && TopBit(Shl(Shl(Shl(c))))
    && TopBit(d) && TopBit(Shl(d)) && TopBit(Shl(Shl(d))) && TopBit(Shl(Shl(Shl(d))))
  }

  lemma FourBits(c: Word, n: nat)
    requires n >= 4
    ensures Bits(c, n) == [TopBit(c), TopBit(Shl(c)), TopBit(Shl(Shl(c))), TopBit(Shl(Shl(Shl(c))))] + Bits(Shl(Shl(Shl(Shl(c)))), n - 4)
  {
    hide TopBit, Shl;
    assert Bits(c, n) == [TopBit(c)] + Bits(Shl(c), n - 1);
    assert Bits(Shl(c), n - 1) == [TopBit(Shl(c))] + Bits(Shl(Shl(c)), n - 2);
    assert Bits(Shl(Shl(c)), n - 2) == [TopBit(Shl(Shl(c)))] + Bits(Shl(Shl(Shl(c))), n - 3);
  }

  lemma OnesTops()
    ensures EightTops(ONES) && Shl8(ONES) == Word(0xffff_ff00)
    ensures EightTops(Word(0xffff_ff00)) && Shl8(Word(0xffff_ff00)) == Word(0xffff_0000)
    ensures EightTops(Word(0xffff_0000)) && Shl8(Word(0xffff_0000)) == Word(0xff00_0000)
    ensures EightTops(Word(0xff00_0000)) && Shl8(Word(0xff00_0000)) == ZERO
  {
  }
}
