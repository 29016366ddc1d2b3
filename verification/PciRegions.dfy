/** The default map of pci_bios_init_device: every region of every device is given the next
    addresses of one of four spaces (section 6.2.5.1 of the PCI Local Bus Specification 3.0).
    Addresses and sizes are 32-bit and wrap. */
module PciRegions {
  import opened Common

  const MEM_ALIGN := 0x1_0000
  const IO_ALIGN := 0x10

  /** The spaces: I/O and memory, on bus 0 and behind the AGP bridge. */
  datatype Space = Io | AgpIo | Mem | AgpMem

  datatype Region = Region(first: nat, size: nat)

  /** What the base address register says about the size, after writing ones to it:
      (~(val & ~0xf)) + 1 */
  function SizeOf(val: nat): nat
    requires val < U32
  {
    (U32 - (val - val % 16)) % U32
  }

  predicate IsIo(val: nat) {
    val % 2 == 1
  }

  function SpaceOf(bus: nat, val: nat): Space {
    if IsIo(val) then (if bus == 1 then AgpIo else Io) else (if bus == 1 then AgpMem else Mem)
  }

  function AlignOf(val: nat): nat {
    if IsIo(val) then IO_ALIGN else MEM_ALIGN
  }

  /** x & ~m */
  function AndNot(x: nat, m: nat): (r: nat)
    ensures r <= x
    decreases x
  {
    if x == 0 then 0 else (if x % 2 == 1 && m % 2 == 0 then 1 else 0) + 2 * AndNot(x / 2, m / 2)
  }

  /** (p + size - 1) & ~(size - 1) */
  function AlignUp(p: nat, size: nat): nat
    requires p < U32 && size < U32
  {
    AndNot((p + size + U32 - 1) % U32, (size + U32 - 1) % U32)
  }

  /** What the cursor moves on by, behind the region's first address. */
  function Stride(size: nat, align: nat): nat {
    if size < align then align else size
  }

  ghost predicate PowerOfTwo(size: nat) {
    exists k: nat :: k < 32 && size == Pow2(k)
  }

  /** Neither aligning the cursor nor moving it behind the region wraps. */
  ghost predicate Fits(p: nat, size: nat, align: nat) {
    0 < size < U32 && p + (size - 1) < U32 && AlignUp(p, size) + Stride(size, align) < U32
  }

  lemma {:induction false} AndNotLow(x: nat, k: nat)
    ensures AndNot(x, Pow2(k) - 1) == x - x % Pow2(k)
    decreases k
  {
    hide AndNot, Pow2;
    PowerStep(k);
    if k == 0 {
      AndNotNothing(x);
    } else {
      AndNotLow(x / 2, k - 1);
      OddMask(x, Pow2(k - 1));
      HalfMod(x, Pow2(k - 1));
    }
  }

  lemma PowerStep(k: nat)
    ensures Pow2(k) == if k == 0 then 1 else 2 * Pow2(k - 1)
  {
  }

  lemma OddMask(x: nat, h: nat)
    requires h > 0
    ensures AndNot(x, 2 * h - 1) == 2 * AndNot(x / 2, h - 1)
  {
    assert (2 * h - 1) % 2 == 1 && (2 * h - 1) / 2 == h - 1;
  }

  lemma {:induction false} AndNotNothing(x: nat)
    ensures AndNot(x, 0) == x
  {
    if x > 0 {
      AndNotNothing(x / 2);
    }
  }

  lemma HalfMod(x: nat, h: nat)
    requires h > 0
    ensures x - x % (2 * h) == 2 * (x / 2 - x / 2 % h)
  {
    var q := x / 2 / h;
    DivMod(x / 2, h);
    DivMod(x, 2 * h);
    var d := x / (2 * h);
    var m := 2 * h;
    assert q * m == 2 * (q * h);
    LessMultiple(d, q, m);
    LessMultiple(q, d, m);
  }

  /** Masking takes away no more than the mask. */
  lemma {:induction false} AndNotBounds(x: nat, m: nat)
    ensures x - m <= AndNot(x, m) <= x
    decreases x
  {
    if x > 0 {
      AndNotBounds(x / 2, m / 2);
    }
  }

  /** Whatever the size, the region begins at or behind the cursor if and only if adding the size
      to the cursor does not wrap; size 0 puts it at 0. */
  lemma BehindCursorIff(p: nat, size: nat)
    requires p < U32 && size < U32
    ensures size > 0 ==> (p <= AlignUp(p, size) <==> p + (size - 1) < U32)
    ensures size > 0 ==> AlignUp(p, size) < p + size
    ensures size == 0 ==> AlignUp(p, size) == 0
  {
    if size == 0 {
      NoSize(p);
    } else {
      hide AndNot;
      AddedSize(p, size);
      AndNotBounds((p + size + U32 - 1) % U32, size - 1);
    }
  }

  lemma AddedSize(p: nat, size: nat)
    requires p < U32 && 1 <= size < U32
    ensures (p + size + U32 - 1) % U32 == if p + (size - 1) < U32 then p + (size - 1) else p + (size - 1) - U32
    ensures (size + U32 - 1) % U32 == size - 1
  {
  }

  lemma NoSize(p: nat)
    requires p < U32
    ensures AlignUp(p, 0) == 0
  {
    hide AndNot, Pow2;
    TopPower();
    PowerStep(32);
    AndNotLow((p + U32 - 1) % U32, 32);
  }

  /** A power-of-two size aligns the cursor up to a multiple, the next one. */
  lemma Placed(p: nat, size: nat)
    requires p < U32 && size < U32 && PowerOfTwo(size) && p + (size - 1) < U32
    ensures AlignUp(p, size) % size == 0 && p <= AlignUp(p, size) < p + size
  {
    hide Pow2, AndNot;
    var k: nat :| k < 32 && size == Pow2(k);
    var x := p + size - 1;
    AndNotLow(x, k);
    PowerPositive(k);
    NoWrapSize(p, size);
    RoundDown(x, size);
  }

  lemma PowerPositive(k: nat)
    ensures Pow2(k) >= 1
  {
  }

  lemma NoWrapSize(p: nat, size: nat)
    requires p < U32 && 1 <= size < U32 && p + (size - 1) < U32
    ensures (p + size + U32 - 1) % U32 == p + size - 1 && (size + U32 - 1) % U32 == size - 1
  {
  }

  lemma RoundDown(x: nat, c: nat)
    requires c > 0
    ensures x < x - x % c + c && x - x % c <= x && (x - x % c) % c == 0
  {
    DivMod(x, c);
    Multiple(x / c, c);
  }

  /** The regions given out in one space: each behind the one before and none beyond the cursor,
      and each whose size is a power of two aligned to it. */
  ghost predicate InOrder(regions: seq<Region>, start: nat, cursor: nat) {
    && start <= cursor < U32
    && (forall i :: 0 <= i < |regions| ==>
          var g := regions[i];
          && g.size > 0 && start <= g.first && g.first + g.size <= cursor
          && (PowerOfTwo(g.size) ==> g.first % g.size == 0))
    && (forall i, j :: 0 <= i < j < |regions| ==> regions[i].first + regions[i].size <= regions[j].first)
  }

  lemma OneMoreInOrder(regions: seq<Region>, start: nat, cursor: nat, size: nat, align: nat)
    requires InOrder(regions, start, cursor) && size < U32 && Fits(cursor, size, align)
    ensures var r := AlignUp(cursor, size);
            InOrder(regions + [Region(r, size)], start, r + Stride(size, align))
  {
    BehindCursorIff(cursor, size);
    if PowerOfTwo(size) {
      Placed(cursor, size);
    }
    hide PowerOfTwo, AlignUp;
  }

  const IO_START := 0xc000
  const AGP_IO_START := 0xe000
  const MEM_START := 0xc000_0000
  const AGP_MEM_START := 0xd000_0000

  function StartOf(s: Space): nat {
    match s case Io => IO_START case AgpIo => AGP_IO_START case Mem => MEM_START case AgpMem => AGP_MEM_START
  }

  const SPACES := {Io, AgpIo, Mem, AgpMem}

  /** In every space in which nothing has wrapped, the regions are increasing and disjoint, and
      aligned where their sizes are powers of two. */
  ghost predicate AllInOrder(cursors: map<Space, nat>, given: map<Space, seq<Region>>, sound: set<Space>) {
    && cursors.Keys == given.Keys == SPACES && sound <= SPACES
    && (forall s :: s in cursors ==> cursors[s] < U32)
    && (forall s :: s in sound ==> InOrder(given[s], StartOf(s), cursors[s]))
  }

  /** The next region of a space. */
  lemma OneMoreGiven(cursors: map<Space, nat>, given: map<Space, seq<Region>>, sound: set<Space>, s: Space, size: nat, align: nat)
    requires AllInOrder(cursors, given, sound) && s in SPACES && size < U32
    ensures var r := AlignUp(cursors[s], size);
            AllInOrder(cursors[s := (r + Stride(size, align)) % U32], given[s := given[s] + [Region(r, size)]],
                       if Fits(cursors[s], size, align) then sound else sound - {s})
  {
    hide InOrder, AlignUp;
    if s in sound && Fits(cursors[s], size, align) {
      OneMoreInOrder(given[s], StartOf(s), cursors[s], size, align);
    }
  }

  lemma SpacesKnown(cursors: map<Space, nat>, given: map<Space, seq<Region>>, sound: set<Space>)
    requires AllInOrder(cursors, given, sound)
    ensures cursors.Keys == given.Keys == SPACES && forall s :: s in cursors ==> cursors[s] < U32
  {
  }

  lemma NothingGiven(cursors: map<Space, nat>, given: map<Space, seq<Region>>)
    requires cursors.Keys == given.Keys == SPACES
    requires forall s :: s in given ==> given[s] == [] && cursors[s] == StartOf(s)
    ensures AllInOrder(cursors, given, SPACES)
  {
  }

  class PciBios {
    var ioAddr: nat
    var agpIoAddr: nat
    var memAddr: nat
    var agpMemAddr: nat
    /** What has been given out in each space. */
    ghost var given: map<Space, seq<Region>>
    /** The spaces in which everything given out has fitted. */
    ghost var sound: set<Space>

    ghost function Cursors(): (c: map<Space, nat>)
      reads `ioAddr, `agpIoAddr, `memAddr, `agpMemAddr
      ensures c.Keys == SPACES
    {
      map s | s in SPACES :: var a: nat := match s case Io => ioAddr case AgpIo => agpIoAddr case Mem => memAddr case AgpMem => agpMemAddr; a
    }

    ghost predicate Valid()
      reads this
    {
      AllInOrder(Cursors(), given, sound)
    }

    /** pci_bios_init */
    constructor ()
      ensures Valid() && sound == SPACES && forall s :: s in given ==> given[s] == [] && Cursors()[s] == StartOf(s)
      ensures ioAddr == 0xc000 && agpIoAddr == 0xe000 && memAddr == 0xc000_0000 && agpMemAddr == 0xd000_0000
    {
      ioAddr, agpIoAddr, memAddr, agpMemAddr := IO_START, AGP_IO_START, MEM_START, AGP_MEM_START;
      given := map[Io := [], AgpIo := [], Mem := [], AgpMem := []];
      sound := SPACES;
      new;
      hide AllInOrder;
      NothingGiven(Cursors(), given);
    }

    method SetCursor(s: Space, addr: nat)
      modifies `ioAddr, `agpIoAddr, `memAddr, `agpMemAddr
      ensures Cursors() == old(Cursors())[s := addr]
      ensures ioAddr == (if s == Io then addr else old(ioAddr)) && agpIoAddr == (if s == AgpIo then addr else old(agpIoAddr))
      ensures memAddr == (if s == Mem then addr else old(memAddr)) && agpMemAddr == (if s == AgpMem then addr else old(agpMemAddr))
    {
      match s {
        case Io => ioAddr := addr;
        case AgpIo => agpIoAddr := addr;
        case Mem => memAddr := addr;
        case AgpMem => agpMemAddr := addr;
      }
    }

    method GetCursor(s: Space) returns (addr: nat)
      ensures s in SPACES && addr == Cursors()[s]
      ensures addr == match s case Io => ioAddr case AgpIo => agpIoAddr case Mem => memAddr case AgpMem => agpMemAddr
    {
      addr := match s case Io => ioAddr case AgpIo => agpIoAddr case Mem => memAddr case AgpMem => agpMemAddr;
    }

    /** One turn of the loop over a device's regions: val is what its register reads back.  The
        address is what the register is set to. */
    method AssignRegion(bus: nat, val: nat) returns (addr: nat)
      requires Valid() && val < U32
      modifies this
      ensures Valid() && (val == 0 ==> unchanged(this))
      ensures val != 0 ==>
                var s, size := SpaceOf(bus, val), SizeOf(val);
                && s in SPACES && s in old(given) && old(Cursors())[s] < U32
                && addr == AlignUp(old(Cursors())[s], size)
                && given == old(given)[s := old(given)[s] + [Region(addr, size)]]
                && sound == (if Fits(old(Cursors())[s], size, AlignOf(val)) then old(sound) else old(sound) - {s})
                && Cursors() == old(Cursors())[s := (addr + Stride(size, AlignOf(val))) % U32]
      // bit 0 tells I/O from memory and bus 1 lies behind the AGP bridge; the other three cursors stay
      ensures val != 0 ==>
                var io, agp := val % 2 == 1, bus == 1;
                var cursor := old((if io then (if agp then agpIoAddr else ioAddr) else (if agp then agpMemAddr else memAddr)));
                var size := SizeOf(val);
                var minimum := (if io then 0x10 else 0x1_0000);
                var next := (addr + (if size < minimum then minimum else size)) % U32;
                && cursor < U32 && addr == AlignUp(cursor, size)
                && ioAddr == (if io && !agp then next else old(ioAddr))
                && agpIoAddr == (if io && agp then next else old(agpIoAddr))
                && memAddr == (if !io && !agp then next else old(memAddr))
                && agpMemAddr == (if !io && agp then next else old(agpMemAddr))
    {
      hide AlignUp, InOrder, Fits, Cursors, AllInOrder;
      SpacesKnown(Cursors(), given, sound);
      addr := 0;
      if val != 0 {
        var s, size, align := SpaceOf(bus, val), SizeOf(val), AlignOf(val);
        var cursor := GetCursor(s);
        OneMoreGiven(Cursors(), given, sound, s, size, align);
        addr := AlignUp(cursor, size);
        SetCursor(s, (addr + Stride(size, align)) % U32);
        given := given[s := given[s] + [Region(addr, size)]];
        sound := if Fits(cursor, size, align) then sound else sound - {s};
      }
    }
  }

  /** Of the bits from a to b, some is one, and all above one that is one are ones. */
  predicate OnesUpwards(x: nat, a: nat, b: nat) {
    && (exists i :: a <= i < b && Bit(x, i))
    && forall i, j :: a <= i < j < b && Bit(x, i) ==> Bit(x, j)
  }

  /** The size is a power of two exactly when the address bits that are ones are all those from
      some bit up. */
  lemma SizeIsPowerIff(val: nat)
    requires val < U32
    ensures PowerOfTwo(SizeOf(val)) <==> OnesUpwards(val, 4, 32)
  {
    hide Pow2, Bit, OnesUpwards;
    var y := val / 16;
    PowerSixteen(28);
    TopPower();
    AboveFour(val);
    OnesIff(y, 28);
    if PowerOfTwo(SizeOf(val)) {
      var k: nat :| k < 32 && SizeOf(val) == Pow2(k);
      SizeSteps(val, k);
    }
    if k: nat :| k < 28 && y == Pow2(28) - Pow2(k) {
      PowerSixteen(k);
      PowersGrow(k, 27);
      PowerStep(28);
      SizeFrom(val, Pow2(k));
      assert SizeOf(val) == Pow2(k + 4);
    }
  }

  lemma SizeFrom(val: nat, rest: nat)
    requires val < U32 && val / 16 == 0x1000_0000 - rest && rest > 0 && val >= 16
    ensures SizeOf(val) == 16 * rest
  {
  }

  lemma PowerSixteen(k: nat)
    ensures Pow2(k + 4) == 16 * Pow2(k) && Pow2(k) >= 1
  {
    PowerStep(k + 4);
    PowerStep(k + 3);
    PowerStep(k + 2);
    PowerStep(k + 1);
  }

  /** A size is a multiple of 16. */
  lemma SizeSteps(val: nat, k: nat)
    requires val < U32 && k < 32 && SizeOf(val) == Pow2(k)
    ensures k >= 4 && val / 16 == Pow2(28) - Pow2(k - 4)
  {
    hide Pow2;
    PowerPositive(k);
    PowerSixteen(28);
    TopPower();
    if k < 4 {
      PowersGrow(k, 3);
      assert Pow2(3) == 8 by { PowerStep(3); PowerStep(2); PowerStep(1); PowerStep(0); }
    } else {
      PowerSixteen(k - 4);
    }
  }

  lemma BitAbove(x: nat, i: nat)
    ensures Bit(x, i + 1) == Bit(x / 2, i)
  {
  }

  lemma AboveFour(val: nat)
    ensures OnesUpwards(val, 4, 32) <==> OnesUpwards(val / 16, 0, 28)
  {
    forall i: nat
      ensures Bit(val, i + 4) == Bit(val / 16, i)
    {
      BitAbove(val, i + 3);
      BitAbove(val / 2, i + 2);
      BitAbove(val / 2 / 2, i + 1);
      BitAbove(val / 2 / 2 / 2, i);
      assert val / 2 / 2 / 2 / 2 == val / 16;
    }
    hide Bit;
    if OnesUpwards(val, 4, 32) {
      var i :| 4 <= i < 32 && Bit(val, i);
      assert Bit(val / 16, i - 4);
    }
    if OnesUpwards(val / 16, 0, 28) {
      var i: nat :| i < 28 && Bit(val / 16, i);
      assert Bit(val, i + 4);
    }
    assert forall i :: 4 <= i < 32 ==> Bit(val, i) == Bit(val / 16, i - 4);
  }

  lemma {:induction false} OnesIff(y: nat, n: nat)
    requires y < Pow2(n)
    ensures OnesUpwards(y, 0, n) <==> exists k: nat :: k < n && y == Pow2(n) - Pow2(k)
  {
    hide Pow2;
    PowerStep(n);
    PowerStep(0);
    if n > 0 {
      BitsShift(y, n);
      OnesIff(y / 2, n - 1);
      if y % 2 == 1 {
        AllOnesIs(y, n);
        if k: nat :| k < n && y == Pow2(n) - Pow2(k) {
          PowerStep(k);
        }
      } else {
        if k: nat :| k < n && y == Pow2(n) - Pow2(k) {
          PowerStep(k);
          assert y / 2 == Pow2(n - 1) - Pow2(k - 1);
        }
        if k: nat :| k < n - 1 && y / 2 == Pow2(n - 1) - Pow2(k) {
          PowerStep(k + 1);
          assert y == Pow2(n) - Pow2(k + 1);
        }
      }
    }
  }

  predicate AllOnes(x: nat, n: nat) {
    forall i :: 0 <= i < n ==> Bit(x, i)
  }

  /** The bits of y are its lowest one and those of y / 2. */
  lemma BitsOfHalf(y: nat, n: nat)
    ensures forall i :: 0 <= i < n ==> Bit(y, i) == if i == 0 then y % 2 == 1 else Bit(y / 2, i - 1)
    ensures forall i :: 0 <= i < n - 1 ==> Bit(y / 2, i) == Bit(y, i + 1)
  {
  }

  /** The lowest bit decides, if it is one. */
  lemma BitsShift(y: nat, n: nat)
    requires n > 0
    ensures y % 2 == 1 ==> (OnesUpwards(y, 0, n) <==> AllOnes(y, n))
    ensures y % 2 == 0 ==> (OnesUpwards(y, 0, n) <==> OnesUpwards(y / 2, 0, n - 1))
  {
    hide Bit;
    BitsOfHalf(y, n);
    if y % 2 == 1 {
      assert Bit(y, 0);
      assert OnesUpwards(y, 0, n) ==> forall j :: 0 < j < n ==> Bit(y, j);
      assert AllOnes(y, n) ==> OnesUpwards(y, 0, n);
    } else {
      if OnesUpwards(y, 0, n) {
        var i :| 0 <= i < n && Bit(y, i);
        assert Bit(y / 2, i - 1);
        forall i, j | 0 <= i < j < n - 1 && Bit(y / 2, i)
          ensures Bit(y / 2, j)
        {
          assert Bit(y, i + 1) && Bit(y, j + 1);
        }
      }
      if OnesUpwards(y / 2, 0, n - 1) {
        var i: nat :| i < n - 1 && Bit(y / 2, i);
        assert Bit(y, i + 1);
      }
    }
  }

  lemma {:induction false} AllOnesIs(y: nat, n: nat)
    requires y < Pow2(n)
    ensures AllOnes(y, n) <==> y == Pow2(n) - 1
  {
    hide Pow2;
    PowerStep(n);
    if n > 0 {
      AllOnesIs(y / 2, n - 1);
      AllBits(y, n);
    }
  }

  lemma AllBits(y: nat, n: nat)
    requires n > 0
    ensures AllOnes(y, n) <==> y % 2 == 1 && AllOnes(y / 2, n - 1)
  {
    BitsOfHalf(y, n);
    if AllOnes(y, n) {
      assert Bit(y, 0);
    }
  }

  // ---------------------------------------------- which registers lead to aligned regions

  /** Wherever the cursor stands, if the size can be added to it, the region is aligned. */
  ghost predicate Aligns(size: nat)
    requires size < U32
  {
    size > 0 && forall p: nat {:trigger AlignUp(p, size)} :: p + (size - 1) < U32 ==> AlignUp(p, size) % size == 0
  }

  /** A register leads to aligned regions, at all cursors where nothing wraps, if and only if the
      address bits it reads back are ones from some bit up. */
  lemma RegisterAlignsIff(val: nat)
    requires val < U32
    ensures Aligns(SizeOf(val)) <==> OnesUpwards(val, 4, 32)
  {
    hide OnesUpwards, PowerOfTwo;
    SizeIsPowerIff(val);
    AlignsIff(SizeOf(val));
  }

  lemma AlignsIff(size: nat)
    requires size < U32
    ensures Aligns(size) <==> PowerOfTwo(size)
  {
    hide Pow2, AlignUp;
    if PowerOfTwo(size) {
      var j: nat :| j < 32 && size == Pow2(j);
      PowerPositive(j);
      forall p: nat | p + (size - 1) < U32
        ensures AlignUp(p, size) % size == 0
      {
        Placed(p, size);
      }
    }
    if Aligns(size) {
      LastCursor(size);
      assert AlignUp(U32 - size, size) == U32 - size;
      TopPower();
      PowerStep(32);
      DividesRest(size, U32);
      var j := DivisorOfPower(size, 32);
      assert j < 32;
    }
  }

  /** At the last cursor to which the size can be added, nothing is rounded up. */
  lemma LastCursor(size: nat)
    requires 0 < size < U32
    ensures AlignUp(U32 - size, size) == U32 - size
  {
    hide AndNot, Pow2;
    TopPower();
    PowerStep(32);
    AndNotOnes(size - 1, 32);
    NoWrapSize(U32 - size, size);
  }

  lemma {:induction false} AndNotOnes(m: nat, k: nat)
    requires m < Pow2(k)
    ensures AndNot(Pow2(k) - 1, m) == Pow2(k) - 1 - m
    decreases k
  {
    hide AndNot, Pow2;
    PowerStep(k);
    PowerPositive(k);
    AndNotZero(m);
    if k > 0 {
      PowerPositive(k - 1);
      AndNotOnes(m / 2, k - 1);
      AndNotStep(Pow2(k) - 1, m);
    }
  }

  lemma DividesRest(d: nat, n: nat)
    requires 0 < d <= n && (n - d) % d == 0
    ensures n % d == 0
  {
    DivMod(n - d, d);
    NextMultiple((n - d) / d, d);
    Multiple((n - d) / d + 1, d);
  }

  /** Only powers of two divide powers of two. */
  lemma {:induction false} DivisorOfPower(d: nat, k: nat) returns (j: nat)
    requires d > 0 && Pow2(k) % d == 0
    ensures j <= k && d == Pow2(j)
    decreases k
  {
    hide Pow2;
    PowerStep(k);
    PowerStep(0);
    if k == 0 {
      DivisorOfOne(d);
      j := 0;
    } else if d % 2 == 0 {
      HalfDivides(d, Pow2(k - 1));
      j := DivisorOfPower(d / 2, k - 1);
      PowerStep(j + 1);
      j := j + 1;
    } else {
      OddDivides(d, Pow2(k - 1));
      j := DivisorOfPower(d, k - 1);
    }
  }

  lemma DivisorOfOne(d: nat)
    requires d > 0 && 1 % d == 0
    ensures d == 1
  {
  }

  lemma HalfDivides(d: nat, h: nat)
    requires d > 0 && d % 2 == 0 && 2 * h % d == 0
    ensures h % (d / 2) == 0
  {
    var e, q := d / 2, 2 * h / d;
    DivMod(2 * h, d);
    assert 2 * h == q * d == 2 * (q * e);
    Multiple(q, e);
  }

  lemma OddTimes(q: nat, e: nat)
    ensures q * (2 * e + 1) == 2 * (q * e) + q
  {
  }

  lemma TwiceTimes(c: nat, d: nat)
    ensures (2 * c) * d == 2 * (c * d)
  {
  }

  lemma OddDivides(d: nat, h: nat)
    requires d > 0 && d % 2 == 1 && 2 * h % d == 0
    ensures h % d == 0
  {
    var e, q := d / 2, 2 * h / d;
    DivMod(2 * h, d);
    var c := q / 2;
    OddTimes(q, e);
    assert q == 2 * c;
    TwiceTimes(c, d);
    Multiple(c, d);
  }

  /** A register that reads back nothing but flags gets address 0 and takes the cursor back to the
      bottom of the 32-bit space. */
  lemma FlagsOnly(val: nat, p: nat)
    requires 0 < val < 16 && p < U32
    ensures SizeOf(val) == 0 && AlignUp(p, SizeOf(val)) == 0 && Stride(SizeOf(val), AlignOf(val)) == AlignOf(val)
  {
    BehindCursorIff(p, 0);
  }

  /** One that decodes fewer address bits, as I/O registers may, reads back zeros above them, and
      what is taken for its size is no power of two. */
  lemma NarrowRegister(val: nat)
    requires 0 < val - val % 16 < 0x8000_0000
    ensures !PowerOfTwo(SizeOf(val))
  {
    if PowerOfTwo(SizeOf(val)) {
      var k: nat :| k < 32 && SizeOf(val) == Pow2(k);
      PowersGrow(k, 31);
      TopPower();
    }
  }

  lemma {:induction false} PowersGrow(j: nat, k: nat)
    requires j <= k
    ensures Pow2(j) <= Pow2(k)
    decreases k - j
  {
    if j < k {
      PowersGrow(j + 1, k);
    }
  }

  lemma TopPower()
    ensures Pow2(31) == 0x8000_0000 && Pow2(28) == 0x1000_0000
  {
    assert Pow2(7) == 0x80;
    assert Pow2(13) == 0x2000;
    assert Pow2(19) == 0x8_0000;
    assert Pow2(25) == 0x200_0000;
    assert Pow2(28) == 0x1000_0000;
  }

  /** Two I/O registers that decode 16 bits, as those of a device with 16 ports each, and then one
      that decodes all 32: the second region begins inside the first, as sized, and the third at
      an address that no I/O port has. */
  lemma NarrowRegistersMisplace()
    ensures var size := SizeOf(0xfff1);
            var p1, p2, p3 := 0xc000, 0xc010, 0xffff_c020;
            && size == 0xffff_0010 && p1 == AlignUp(IO_START, size) && p1 % size != 0
            && var c1 := (p1 + Stride(size, IO_ALIGN)) % U32;
               var c2 := (p2 + Stride(size, IO_ALIGN)) % U32;
               && p2 == AlignUp(c1, size) && p1 < p2 < p1 + size && p2 < c1
               && SizeOf(0xffff_fff1) == 0x10 && p3 == AlignUp(c2, 0x10) && p3 > 0xffff
  {
    Masked();
    hide AndNot;
    assert AlignUp(0xc000, 0xffff_0010) == AndNot(0xffff_c00f, 0xffff_000f);
    assert AlignUp(0xffff_c010, 0xffff_0010) == AndNot(0xfffe_c01f, 0xffff_000f);
    assert AlignUp(0xffff_c020, 0x10) == AndNot(0xffff_c02f, 0x000f);
  }

  lemma LowFour(x: nat)
    ensures AndNot(x, 0xf) == x - x % 16
  {
    AndNotLow(x, 4);
    assert Pow2(4) == 16;
  }

  lemma Masked()
    ensures AndNot(0xffff_c00f, 0xffff_000f) == 0xc000 && AndNot(0xfffe_c01f, 0xffff_000f) == 0xc010
    ensures AndNot(0xffff_c02f, 0x000f) == 0xffff_c020
  {
    hide AndNot, Pow2;
    SixteenIs();
    SixteenBits(0xffff, 0xc00f, 0xffff, 0x000f);
    SixteenBits(0xfffe, 0xc01f, 0xffff, 0x000f);
    SixteenBits(0xffff, 0xc02f, 0, 0x000f);
    AndNotLow(0xffff, 16);
    AndNotLow(0xfffe, 16);
    AndNotNothing(0xffff);
    LowFour(0xc00f);
    LowFour(0xc01f);
    LowFour(0xc02f);
  }

  lemma SixteenBits(x: nat, a: nat, m: nat, b: nat)
    requires a < 0x1_0000 && b < 0x1_0000
    ensures AndNot(x * 0x1_0000 + a, m * 0x1_0000 + b) == AndNot(x, m) * 0x1_0000 + AndNot(a, b)
  {
    hide AndNot, Pow2;
    SixteenIs();
    AndNotSplit(x, a, m, b, 16);
  }

  lemma SixteenIs()
    ensures Pow2(16) == 0x1_0000
  {
    assert Pow2(6) == 0x40;
    assert Pow2(12) == 0x1000;
  }

  lemma {:induction false} AndNotSplit(x: nat, a: nat, m: nat, b: nat, k: nat)
    requires a < Pow2(k) && b < Pow2(k)
    ensures AndNot(x * Pow2(k) + a, m * Pow2(k) + b) == AndNot(x, m) * Pow2(k) + AndNot(a, b)
    decreases k
  {
    hide Pow2, AndNot;
    PowerStep(k);
    AndNotZero(0);
    if k > 0 {
      var h := Pow2(k - 1);
      AndNotSplit(x, a / 2, m, b / 2, k - 1);
      HalfSum(x, a, h);
      HalfSum(m, b, h);
      AndNotStep(x * (2 * h) + a, m * (2 * h) + b);
      AndNotStep(a, b);
      var r := AndNot(x, m);
      assert r * (2 * h) == 2 * (r * h);
    }
  }

  lemma AndNotZero(m: nat)
    ensures AndNot(0, m) == 0
  {
  }

  lemma AndNotStep(x: nat, m: nat)
    ensures AndNot(x, m) == (if x % 2 == 1 && m % 2 == 0 then 1 else 0) + 2 * AndNot(x / 2, m / 2)
  {
  }

  lemma HalfSum(x: nat, a: nat, h: nat)
    ensures (x * (2 * h) + a) / 2 == x * h + a / 2 && (x * (2 * h) + a) % 2 == a % 2
  {
    assert x * (2 * h) == 2 * (x * h);
  }
}
