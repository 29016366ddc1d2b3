/** Addresses, page-table words and the table walk (memory.h, memory.c): four-level paging
    with 2 MB pages, section 4.5 of the Intel SDM volume 3A.  Shifts by constants are
    written as divisions and multiplications; | is BitOr. */
module Paging {
  import opened Common

  const PAGE_SIZE := 0x20_0000
  const KERNEL_BASE := 0xffff_8000_0000_0000
  const KERNEL_LIMIT := 0xffff_8000_3000_0000
  const ONE_GB := 0x4000_0000
  const ENTRIES := 512
  /** 8-byte words in a frame; a table uses the first 512 of them. */
  const WORDS := 0x4_0000
  /** 48-bit pages. */
  const PAGES := 0x800_0000

  const PTE_P := 1
  const PTE_W := 2
  const PTE_U := 4
  const PTE_ENTRY := 0x80

  predicate Aligned(v: nat) {
    v % PAGE_SIZE == 0
  }

  function PaUp(v: nat): nat {
    (v + PAGE_SIZE - 1) % U64 / PAGE_SIZE * PAGE_SIZE
  }

  function PaDown(v: nat): nat {
    v / PAGE_SIZE * PAGE_SIZE
  }

  function P2V(p: nat): nat {
    (p + KERNEL_BASE) % U64
  }

  function V2P(v: nat): nat {
    (v - KERNEL_BASE) % U64
  }

  function PdeAddr(w: nat): nat {
    w / 4096 * 4096
  }

  function PteAddr(w: nat): nat {
    w / PAGE_SIZE * PAGE_SIZE
  }

  predicate Present(w: nat) {
    w % 2 == 1
  }

  /** Attributes fit in the low 12 bits and mark the entry present. */
  predicate Attributes(a: nat) {
    a < 4096 && Present(a)
  }

  // --------------------------------------------------------------------- bitwise or

  function BitOr(a: nat, b: nat): nat
    decreases a + b
  {
    if a == 0 && b == 0 then 0
    else (if a % 2 == 1 || b % 2 == 1 then 1 else 0) + 2 * BitOr(a / 2, b / 2)
  }

  lemma {:induction false} OrWithZero(a: nat)
    ensures BitOr(a, 0) == a
  {
    if a != 0 {
      OrWithZero(a / 2);
    }
  }

  /** Bits above the lowest k pass through when the other operand has none of them. */
  lemma {:induction false} OrLowBits(q: nat, x: nat, y: nat, k: nat)
    requires x < Pow2(k) && y < Pow2(k)
    ensures BitOr(q * Pow2(k) + x, y) == q * Pow2(k) + BitOr(x, y)
    ensures BitOr(x, y) < Pow2(k)
  {
    if k == 0 {
      OrWithZero(q);
      assert q * Pow2(0) == q;
    } else {
      var h := q * Pow2(k - 1);
      assert q * Pow2(k) == 2 * h;
      assert (2 * h + x) / 2 == h + x / 2;
      OrLowBits(q, x / 2, y / 2, k - 1);
    }
  }

  lemma OrPresent(a: nat, b: nat)
    ensures Present(BitOr(a, b)) == (Present(a) || Present(b))
  {
  }

  /** An entry pointing to the table at virtual address p. */
  function TableWord(p: nat, attribute: nat): nat {
    BitOr(V2P(p), attribute)
  }

  /** An entry mapping a 2 MB page at physical address pa. */
  function LeafWord(pa: nat, attribute: nat): nat {
    BitOr(BitOr(pa, attribute), PTE_ENTRY)
  }

  predicate FrameAddress(p: nat) {
    Aligned(p) && KERNEL_BASE < p && p + PAGE_SIZE <= KERNEL_LIMIT
  }

  lemma Pow2Values()
    ensures Pow2(12) == 4096 && Pow2(21) == PAGE_SIZE
  {
    assert Pow2(4) == 16;
    assert Pow2(8) == 256;
    assert Pow2(12) == 4096;
    assert Pow2(16) == 65536;
    assert Pow2(20) == 1048576;
  }

  lemma TableWordPoints(p: nat, attribute: nat)
    requires FrameAddress(p) && Attributes(attribute)
    ensures Present(TableWord(p, attribute)) && P2V(PdeAddr(TableWord(p, attribute))) == p
  {
    hide BitOr, Pow2;
    var a := p - KERNEL_BASE;
    OrPresent(a, attribute);
    Pow2Values();
    FrameOffset(p);
    OrAligned(a, attribute, 12);
    LowBitsDropped(a, attribute);
  }

  lemma FrameOffset(p: nat)
    requires FrameAddress(p)
    ensures p >= KERNEL_BASE && (p - KERNEL_BASE) % 4096 == 0 && V2P(p) == p - KERNEL_BASE && P2V(p - KERNEL_BASE) == p
  {
    PagesAboveBase(p);
  }

  lemma PagesAboveBase(p: nat)
    requires Aligned(p) && p >= KERNEL_BASE
    ensures (p - KERNEL_BASE) % 4096 == 0
  {
    var n := p / PAGE_SIZE;
    assert p == PAGE_SIZE * n && KERNEL_BASE == PAGE_SIZE * 0x7fff_c000_000;
    assert p - KERNEL_BASE == 4096 * (ENTRIES * (n - 0x7fff_c000_000));
  }

  lemma LowBitsDropped(a: nat, b: nat)
    requires a % 4096 == 0 && b < 4096
    ensures PdeAddr(a + b) == a
  {
    assert (a + b) / 4096 == a / 4096;
  }

  /** Or-ing a value below 2^k into a multiple of 2^k adds it. */
  lemma OrAligned(a: nat, b: nat, k: nat)
    requires a % Pow2(k) == 0 && b < Pow2(k)
    ensures BitOr(a, b) == a + b
  {
    hide BitOr, Pow2;
    OrLowBits(a / Pow2(k), 0, b, k);
    OrWithZeroLeft(b);
  }

  lemma {:induction false} OrWithZeroLeft(a: nat)
    ensures BitOr(0, a) == a
  {
    if a != 0 {
      OrWithZeroLeft(a / 2);
    }
  }

  lemma LeafWordMaps(pa: nat, attribute: nat)
    requires Aligned(pa) && Attributes(attribute)
    ensures Present(LeafWord(pa, attribute)) && PteAddr(LeafWord(pa, attribute)) == pa
    ensures LeafWord(pa, attribute) == pa + BitOr(attribute, PTE_ENTRY)
  {
    hide BitOr, Pow2;
    OrPresent(attribute, PTE_ENTRY);
    OrPresent(BitOr(pa, attribute), PTE_ENTRY);
    OrPresent(pa, attribute);
    Pow2Values();
    OrAligned(pa, attribute, 21);
    OrLowBits(pa / PAGE_SIZE, attribute, PTE_ENTRY, 21);
    var low := BitOr(attribute, PTE_ENTRY);
    assert LeafWord(pa, attribute) == pa + low;
    assert pa == PAGE_SIZE * (pa / PAGE_SIZE);
    assert (pa + low) / PAGE_SIZE == pa / PAGE_SIZE;
  }

  // ------------------------------------------------------------------- the table walk

  type Frames = map<nat, seq<nat>>

  function Index4(v: nat): nat { v / 0x80_0000_0000 % ENTRIES }
  function Index3(v: nat): nat { v / 0x4000_0000 % ENTRIES }
  function Index2(v: nat): nat { v / PAGE_SIZE % ENTRIES }

  /** The 48-bit page of an address: the walk ignores the upper 16 bits. */
  function PageOf(v: nat): nat { v / PAGE_SIZE % PAGES }

  lemma IndexesOfPage(v: nat)
    ensures Index4(v) == PageOf(v) / 0x4_0000 && Index3(v) == PageOf(v) / ENTRIES % ENTRIES
    ensures Index2(v) == PageOf(v) % ENTRIES
  {
    var n := v / PAGE_SIZE;
    assert v / 0x80_0000_0000 == n / 0x4_0000;
    assert v / 0x4000_0000 == n / ENTRIES;
    IndexesOfNumber(n);
  }

  lemma IndexesOfNumber(n: nat)
    ensures n / 0x4_0000 % ENTRIES == n % PAGES / 0x4_0000
    ensures n / ENTRIES % ENTRIES == n % PAGES / ENTRIES % ENTRIES
    ensures n % ENTRIES == n % PAGES % ENTRIES
  {
    HighIndex(n);
    MiddleIndex(n);
    LowIndex(n);
  }

  lemma HighIndex(n: nat)
    ensures n / 0x4_0000 % ENTRIES == n % PAGES / 0x4_0000
  {
    var a, b := n / PAGES, n % PAGES;
    assert n / 0x4_0000 == ENTRIES * a + b / 0x4_0000;
  }

  lemma MiddleIndex(n: nat)
    ensures n / ENTRIES % ENTRIES == n % PAGES / ENTRIES % ENTRIES
  {
    var a, b := n / PAGES, n % PAGES;
    var c, d := b / ENTRIES, b % ENTRIES;
    assert n == ENTRIES * (0x4_0000 * a + c) + d;
    assert n / ENTRIES == 0x4_0000 * a + c;
    AddMultiple(ENTRIES * a, c);
  }

  lemma AddMultiple(x: nat, c: nat)
    ensures (ENTRIES * x + c) % ENTRIES == c % ENTRIES
  {
  }

  lemma LowIndex(n: nat)
    ensures n % ENTRIES == n % PAGES % ENTRIES
  {
  }

  /** The lower table that entry i of table t points to. */
  function Next(m: Frames, t: nat, i: nat): Option<nat> {
    if t in m && i < |m[t]| && Present(m[t][i]) then Some(P2V(PdeAddr(m[t][i]))) else None
  }

  function PdAt(m: Frames, r: nat, i: nat, j: nat): Option<nat> {
    var p := Next(m, r, i);
    if p.Some? then Next(m, p.value, j) else None
  }

  /** The word that maps the page with indexes i, j, k below the PML4 table r. */
  function Leaf(m: Frames, r: nat, i: nat, j: nat, k: nat): Option<nat> {
    var d := PdAt(m, r, i, j);
    if d.Some? && d.value in m && k < |m[d.value]| && Present(m[d.value][k]) then Some(m[d.value][k]) else None
  }

  function PageLeaf(m: Frames, r: nat, q: nat): Option<nat> {
    Leaf(m, r, q / 0x4_0000, q / ENTRIES % ENTRIES, q % ENTRIES)
  }

  /** The physical address that v translates to under the PML4 table r. */
  function Translate(m: Frames, r: nat, v: nat): Option<nat> {
    var w := PageLeaf(m, r, PageOf(v));
    if w.Some? then Some(PteAddr(w.value) + v % PAGE_SIZE) else None
  }

  lemma SamePage(q: nat, q': nat)
    requires q < PAGES && q' < PAGES
    requires q / 0x4_0000 == q' / 0x4_0000 && q / ENTRIES % ENTRIES == q' / ENTRIES % ENTRIES
    requires q % ENTRIES == q' % ENTRIES
    ensures q == q'
  {
    assert q / 0x4_0000 == q / ENTRIES / ENTRIES;
    assert q' / 0x4_0000 == q' / ENTRIES / ENTRIES;
  }

  /** The number of pages that [v, e) touches. */
  function RangePages(v: nat, e: nat): nat {
    if v < e then (e - 1) / PAGE_SIZE - v / PAGE_SIZE + 1 else 0
  }

  /** How far page q lies behind page q0, counting on past the last page to the first. */
  function PageOffset(q: nat, q0: nat): nat {
    (q - q0) % PAGES
  }

  lemma NextPage(v: nat, t: nat, q: nat)
    requires Aligned(v) && t < PAGES && q < PAGES
    ensures PageOf(v + t * PAGE_SIZE) == (PageOf(v) + t) % PAGES
    ensures PageOffset(q, PageOf(v)) == t <==> q == PageOf(v + t * PAGE_SIZE)
  {
    var n := v / PAGE_SIZE;
    assert (v + t * PAGE_SIZE) / PAGE_SIZE == n + t;
    var a, b := n / PAGES, n % PAGES;
    assert n == PAGES * a + b;
    assert (n + t) % PAGES == (b + t) % PAGES;
  }

  lemma NextPageOffset(v: nat, t: nat)
    requires Aligned(v) && t < PAGES
    ensures PageOf(v + t * PAGE_SIZE) < PAGES && PageOffset(PageOf(v + t * PAGE_SIZE), PageOf(v)) == t
  {
    NextPage(v, t, PageOf(v + t * PAGE_SIZE));
  }

  lemma NextPages(v: nat, t: nat)
    requires Aligned(v) && t < PAGES
    ensures PageOf(v + t * PAGE_SIZE) < PAGES
    ensures forall q :: 0 <= q < PAGES ==> (PageOffset(q, PageOf(v)) == t <==> q == PageOf(v + t * PAGE_SIZE))
  {
    forall q | 0 <= q < PAGES
      ensures PageOffset(q, PageOf(v)) == t <==> q == PageOf(v + t * PAGE_SIZE)
    {
      NextPage(v, t, q);
    }
  }

  /** From m0 to m1 the n pages from q0 on have been mapped to consecutive physical pages
      from pa on, and every other 48-bit page is mapped as before. */
  ghost predicate RangeMapped(m0: Frames, m1: Frames, r: nat, q0: nat, n: nat, pa: nat, attribute: nat) {
    forall q :: 0 <= q < PAGES ==>
      PageLeaf(m1, r, q) == if PageOffset(q, q0) < n then Some(LeafWord(pa + PageOffset(q, q0) * PAGE_SIZE, attribute))
                            else PageLeaf(m0, r, q)
  }

  // ----------------------------------------------------- the pages that the loops visit

  /** while (vstart + PAGE_SIZE <= vend), in 64-bit arithmetic */
  predicate GoesOn(vstart: nat, vend: nat) {
    (vstart + PAGE_SIZE) % U64 <= vend
  }

  /** Where round k of a loop that starts at vstart stands: the address wraps. */
  function PageAt(vstart: nat, k: nat): nat {
    (vstart + k * PAGE_SIZE) % U64
  }

  /** The do/while of map_pages and free_pages comes to round k. */
  ghost predicate Reached(vstart: nat, vend: nat, k: nat) {
    k == 0 || (Reached(vstart, vend, k - 1) && GoesOn(PageAt(vstart, k), vend))
  }

  ghost predicate Visited(vstart: nat, vend: nat, p: nat) {
    exists k: nat :: Reached(vstart, vend, k) && PageAt(vstart, k) == p
  }

  /** The loop ends by its own test, and before its address wraps to the bottom of the address
      space: by LoopEndsIff this is exactly when it does. */
  predicate LoopEnds(vstart: nat, vend: nat) {
    && Aligned(vstart) && Aligned(vend) && vstart < U64 && vend < U64
    && (vend == 0 || vstart < vend <= U64 - 2 * PAGE_SIZE || vend <= vstart <= U64 - 3 * PAGE_SIZE)
  }

  /** How many rounds it makes.  vend is 0 when rounding up has wrapped. */
  function Rounds(vstart: nat, vend: nat): nat {
    if vend == 0 then (if vstart == U64 - 2 * PAGE_SIZE then 2 else 1)
    else if vstart < vend then (vend - vstart) / PAGE_SIZE
    else 1
  }

  lemma RoundStep(vstart: nat, vend: nat, t: nat)
    requires LoopEnds(vstart, vend) && t < Rounds(vstart, vend)
    ensures vstart + t * PAGE_SIZE < U64 && PageAt(vstart, t) == vstart + t * PAGE_SIZE && Aligned(vstart + t * PAGE_SIZE)
    ensures (vstart + t * PAGE_SIZE + PAGE_SIZE) % U64 == PageAt(vstart, t + 1)
    ensures GoesOn(PageAt(vstart, t + 1), vend) <==> t + 1 < Rounds(vstart, vend)
  {
    if vstart < vend {
      assert vend == vstart + Rounds(vstart, vend) * PAGE_SIZE;
    }
  }

  lemma {:induction false} RoundsReached(vstart: nat, vend: nat, k: nat)
    requires LoopEnds(vstart, vend)
    ensures Reached(vstart, vend, k) <==> k < Rounds(vstart, vend)
  {
    hide GoesOn, PageAt;
    AtLeastOne(vstart, vend);
    if k > 0 {
      RoundsReached(vstart, vend, k - 1);
      if k - 1 < Rounds(vstart, vend) {
        RoundStep(vstart, vend, k - 1);
      }
    }
  }

  lemma LoopEndsIff(vstart: nat, vend: nat)
    requires Aligned(vstart) && Aligned(vend) && vstart < U64 && vend < U64
    ensures LoopEnds(vstart, vend) <==>
            && (exists n: nat :: !Reached(vstart, vend, n))
            && forall k: nat :: Reached(vstart, vend, k) ==> vstart + k * PAGE_SIZE < U64
  {
    if LoopEnds(vstart, vend) {
      RoundsReached(vstart, vend, Rounds(vstart, vend));
      forall k: nat | Reached(vstart, vend, k)
        ensures vstart + k * PAGE_SIZE < U64
      {
        RoundsReached(vstart, vend, k);
        RoundStep(vstart, vend, k);
      }
    } else if vend == U64 - PAGE_SIZE {
      forall n: nat
        ensures Reached(vstart, vend, n)
      {
        NeverEnds(vstart, n);
      }
    } else {
      LastPagesWrap(vstart, vend);
    }
  }

  /** From the last two pages the loop goes on at the bottom, unless the end is 0. */
  lemma LastPagesWrap(vstart: nat, vend: nat)
    requires Aligned(vstart) && Aligned(vend) && vstart < U64 && vend < U64
    requires !LoopEnds(vstart, vend) && vend != U64 - PAGE_SIZE
    ensures exists k: nat :: Reached(vstart, vend, k) && vstart + k * PAGE_SIZE >= U64
  {
    assert vend >= PAGE_SIZE && vstart >= U64 - 2 * PAGE_SIZE;
    assert Reached(vstart, vend, 0);
    if vstart == U64 - PAGE_SIZE {
      assert PageAt(vstart, 1) == 0;
      assert Reached(vstart, vend, 1);
    } else {
      assert PageAt(vstart, 1) == U64 - PAGE_SIZE && PageAt(vstart, 2) == 0;
      assert Reached(vstart, vend, 1);
      assert Reached(vstart, vend, 2);
    }
  }

  lemma AtLeastOne(vstart: nat, vend: nat)
    requires LoopEnds(vstart, vend)
    ensures Rounds(vstart, vend) >= 1 && Aligned(vstart)
  {
  }

  /** With the end in the last page but one, every address passes the test. */
  lemma {:induction false} NeverEnds(vstart: nat, k: nat)
    requires Aligned(vstart)
    ensures Reached(vstart, U64 - PAGE_SIZE, k)
  {
    if k > 0 {
      NeverEnds(vstart, k - 1);
      AlignedBelow(vstart + k * PAGE_SIZE);
    }
  }

  lemma AlignedBelow(a: nat)
    requires Aligned(a)
    ensures GoesOn(a % U64, U64 - PAGE_SIZE)
  {
    assert (a % U64 + PAGE_SIZE) % U64 % PAGE_SIZE == 0;
  }

  /** The pages that the loop of map_pages visits are those that [v, e) touches. */
  ghost predicate RangeIsExact(v: nat, e: nat) {
    forall p: nat :: p < U64 && Aligned(p) ==> (Visited(PaDown(v), PaUp(e), p) <==> v < p + PAGE_SIZE && p < e)
  }

  /** The guard under which they are: the end lies at or below the last page but one, or in the
      last page with a start no lower than one page before. */
  predicate RangeFits(v: nat, e: nat) {
    e <= U64 - 2 * PAGE_SIZE || (e > U64 - PAGE_SIZE && v >= U64 - 2 * PAGE_SIZE)
  }

  /** The loop visits exactly the pages of its range if and only if the range fits; then it
      ends by its own test. */
  lemma RangeEnds(v: nat, e: nat)
    requires v < e < U64
    ensures RangeIsExact(v, e) <==> RangeFits(v, e)
    ensures RangeFits(v, e) ==> LoopEnds(PaDown(v), PaUp(e)) && Rounds(PaDown(v), PaUp(e)) == RangePages(v, e)
  {
    if RangeFits(v, e) {
      RangeRounds(v, e);
      VisitsRange(v, e);
    } else {
      VisitsOthers(v, e);
    }
  }

  lemma RangeRounds(v: nat, e: nat)
    requires v < e < U64 && !(U64 - 2 * PAGE_SIZE < e <= U64 - PAGE_SIZE)
    ensures LoopEnds(PaDown(v), PaUp(e))
    ensures 1 <= Rounds(PaDown(v), PaUp(e)) <= RangePages(v, e)
    ensures RangeFits(v, e) <==> Rounds(PaDown(v), PaUp(e)) == RangePages(v, e)
    ensures PaDown(v) + RangePages(v, e) * PAGE_SIZE == if PaUp(e) == 0 then U64 else PaUp(e)
  {
    var last := (e - 1) / PAGE_SIZE;
    assert last * PAGE_SIZE <= e - 1 < last * PAGE_SIZE + PAGE_SIZE;
    assert (e + PAGE_SIZE - 1) / PAGE_SIZE == last + 1;
    assert PaDown(v) <= v < PaDown(v) + PAGE_SIZE;
    if e > U64 - PAGE_SIZE {
      assert PaUp(e) == 0;
      assert last == U64 / PAGE_SIZE - 1;
    } else {
      assert PaUp(e) == (last + 1) * PAGE_SIZE;
    }
  }

  lemma VisitsRange(v: nat, e: nat)
    requires v < e < U64 && RangeFits(v, e)
    ensures RangeIsExact(v, e)
  {
    var vstart, vend, n := PaDown(v), PaUp(e), RangePages(v, e);
    RangeRounds(v, e);
    forall p: nat | p < U64 && Aligned(p)
      ensures Visited(vstart, vend, p) <==> v < p + PAGE_SIZE && p < e
    {
      InPages(v, e, p);
      hide GoesOn, PageAt, Reached, PaUp, PaDown, LoopEnds, Rounds, RangePages, Aligned, RangeFits;
      if vstart <= p < vstart + n * PAGE_SIZE {
        var k := (p - vstart) / PAGE_SIZE;
        RoundsReached(vstart, vend, k);
        RoundStep(vstart, vend, k);
        assert Reached(vstart, vend, k) && PageAt(vstart, k) == p;
      }
      if Visited(vstart, vend, p) {
        var k: nat :| Reached(vstart, vend, k) && PageAt(vstart, k) == p;
        RoundsReached(vstart, vend, k);
        RoundStep(vstart, vend, k);
        assert k * PAGE_SIZE < n * PAGE_SIZE;
      }
    }
  }

  /** The aligned addresses of the pages that [v, e) touches. */
  lemma InPages(v: nat, e: nat, p: nat)
    requires v < e < U64 && Aligned(p)
    ensures v < p + PAGE_SIZE && p < e <==> PaDown(v) <= p < PaDown(v) + RangePages(v, e) * PAGE_SIZE
    ensures PaDown(v) <= p ==> p == PaDown(v) + (p - PaDown(v)) / PAGE_SIZE * PAGE_SIZE
    ensures PaDown(v) <= p < PaDown(v) + RangePages(v, e) * PAGE_SIZE ==> 0 <= (p - PaDown(v)) / PAGE_SIZE < RangePages(v, e)
  {
    var a, b, c := v / PAGE_SIZE, (e - 1) / PAGE_SIZE, p / PAGE_SIZE;
    assert p == c * PAGE_SIZE;
    assert v < p + PAGE_SIZE <==> a <= c;
    assert p < e <==> c <= b;
    assert p - PaDown(v) == (c - a) * PAGE_SIZE;
  }

  lemma VisitsOthers(v: nat, e: nat)
    requires v < e < U64 && !RangeFits(v, e)
    ensures !RangeIsExact(v, e)
  {
    var top, vstart, vend := U64 - PAGE_SIZE, PaDown(v), PaUp(e);
    assert Aligned(top) && Aligned(vstart) && vstart <= v;
    if e <= top {
      // the loop goes on into the last page, which is not in the range
      assert vend == top;
      var k := (top - vstart) / PAGE_SIZE;
      NeverEnds(vstart, k);
      assert PageAt(vstart, k) == top;
      assert Visited(vstart, vend, top);
    } else {
      // the loop stops after its first page and never comes to the last
      RangeRounds(v, e);
      hide Reached;
      if Visited(vstart, vend, top) {
        var k: nat :| Reached(vstart, vend, k) && PageAt(vstart, k) == top;
        RoundsReached(vstart, vend, k);
      }
    }
  }

  /** The last three pages: the loop stops after the first of them. */
  lemma LastThreePages()
    ensures var v, e := U64 - 3 * PAGE_SIZE, U64 - 1;
            LoopEnds(PaDown(v), PaUp(e)) && Rounds(PaDown(v), PaUp(e)) == 1 && RangePages(v, e) == 3
            && !RangeIsExact(v, e)
  {
    RangeRounds(U64 - 3 * PAGE_SIZE, U64 - 1);
    RangeEnds(U64 - 3 * PAGE_SIZE, U64 - 1);
  }

  /** What RangeMapped says about addresses: every address of the range translates to pa plus
      its distance from the start, and every address of another page as before. */
  lemma RangeTranslates(m0: Frames, m1: Frames, r: nat, v: nat, n: nat, pa: nat, attribute: nat, a: nat)
    requires Aligned(v) && Aligned(pa) && Attributes(attribute) && n <= PAGES
    requires RangeMapped(m0, m1, r, PageOf(v), n, pa, attribute)
    ensures v <= a < v + n * PAGE_SIZE ==> Translate(m1, r, a) == Some(pa + (a - v))
    ensures PageOffset(PageOf(a), PageOf(v)) >= n ==> Translate(m1, r, a) == Translate(m0, r, a)
  {
    hide PageLeaf, LeafWord, PageOffset, PageOf, Aligned, Attributes, PteAddr;
    PageNumber(a);
    if v <= a < v + n * PAGE_SIZE {
      var t := InRange(v, a, n);
      NextPage(v, t, PageOf(a));
      AlignedSum(pa, t);
      LeafWordMaps(pa + t * PAGE_SIZE, attribute);
    }
  }

  lemma PageNumber(a: nat)
    ensures PageOf(a) < PAGES
  {
  }

  lemma AlignedSum(pa: nat, t: nat)
    requires Aligned(pa)
    ensures Aligned(pa + t * PAGE_SIZE)
  {
  }

  lemma InRange(v: nat, a: nat, n: nat) returns (t: nat)
    requires Aligned(v) && v <= a < v + n * PAGE_SIZE && n <= PAGES
    ensures t < n && t * PAGE_SIZE + a % PAGE_SIZE == a - v && PageOf(a) == PageOf(v + t * PAGE_SIZE)
  {
    t := (a - v) / PAGE_SIZE;
    assert a / PAGE_SIZE == v / PAGE_SIZE + t && (v + t * PAGE_SIZE) / PAGE_SIZE == v / PAGE_SIZE + t;
  }

  lemma RangeBounds(v: nat)
    ensures Aligned(PaDown(v)) && PageOf(PaDown(v)) == PageOf(v)
    ensures Index4(PaDown(v)) == Index4(v) && Index3(PaDown(v)) == Index3(v)
  {
    hide Index4, Index3, PageOf;
    DownSamePage(v);
    IndexesOfPage(v);
    IndexesOfPage(PaDown(v));
  }

  lemma DownSamePage(v: nat)
    ensures Aligned(PaDown(v)) && PageOf(PaDown(v)) == PageOf(v)
  {
    assert PaDown(v) / PAGE_SIZE == v / PAGE_SIZE;
  }

  lemma ZeroMapped(m: Frames, r: nat, q0: nat, pa: nat, attribute: nat)
    ensures RangeMapped(m, m, r, q0, 0, pa, attribute)
  {
  }

  lemma StillMapped(m0: Frames, m1: Frames, m2: Frames, r: nat, q0: nat, n: nat, pa: nat, attribute: nat)
    requires RangeMapped(m0, m1, r, q0, n, pa, attribute)
    requires forall q :: 0 <= q < PAGES ==> PageLeaf(m2, r, q) == PageLeaf(m1, r, q)
    ensures RangeMapped(m0, m2, r, q0, n, pa, attribute)
  {
  }

  /** Before round t, page t of the range is unmapped if it was at the start. */
  lemma StepInRange(m0: Frames, m1: Frames, r: nat, v: nat, t: nat, n: nat, pa: nat, attribute: nat)
    requires Aligned(v) && t < n <= ENTRIES
    requires RangeMapped(m0, m1, r, PageOf(v), t, pa, attribute)
    requires forall q :: 0 <= q < PAGES && PageOffset(q, PageOf(v)) < n ==> PageLeaf(m0, r, q) == None
    ensures PageLeaf(m1, r, PageOf(v + t * PAGE_SIZE)) == None
  {
    hide PageLeaf, LeafWord, PageOffset;
    var q := PageOf(v + t * PAGE_SIZE);
    NextPage(v, t, q);
  }

  /** Pages that share a page directory share the indexes above it. */
  lemma SameDirectory(v: nat, t: nat)
    requires Aligned(v) && PageOf(v) % ENTRIES + t < ENTRIES
    ensures Index4(v + t * PAGE_SIZE) == Index4(v) && Index3(v + t * PAGE_SIZE) == Index3(v)
  {
    var n := v / PAGE_SIZE;
    assert (v + t * PAGE_SIZE) / PAGE_SIZE == n + t;
    assert n % PAGES % ENTRIES == n % ENTRIES;
    assert (n + t) / ENTRIES == n / ENTRIES;
    IndexesAbove(v, n);
    IndexesAbove(v + t * PAGE_SIZE, n + t);
  }

  lemma IndexesAbove(v: nat, n: nat)
    requires n == v / PAGE_SIZE
    ensures Index4(v) == n / ENTRIES / ENTRIES % ENTRIES && Index3(v) == n / ENTRIES % ENTRIES
  {
    assert v / 0x4000_0000 == n / ENTRIES;
    assert v / 0x80_0000_0000 == n / ENTRIES / ENTRIES;
  }

  lemma RangeGrows(m0: Frames, m1: Frames, m2: Frames, r: nat, v: nat, t: nat, pa: nat, attribute: nat)
    requires Aligned(v) && t < PAGES
    requires RangeMapped(m0, m1, r, PageOf(v), t, pa, attribute)
    requires forall q :: 0 <= q < PAGES ==>
               PageLeaf(m2, r, q) == if q == PageOf(v + t * PAGE_SIZE) then Some(LeafWord(pa + t * PAGE_SIZE, attribute))
                                     else PageLeaf(m1, r, q)
    ensures RangeMapped(m0, m2, r, PageOf(v), t + 1, pa, attribute)
  {
    hide LeafWord, PageLeaf, PageOffset, PageOf;
    forall q | 0 <= q < PAGES
      ensures PageLeaf(m2, r, q) == if PageOffset(q, PageOf(v)) < t + 1 then Some(LeafWord(pa + PageOffset(q, PageOf(v)) * PAGE_SIZE, attribute))
                                    else PageLeaf(m0, r, q)
    {
      NextPage(v, t, q);
    }
  }

  /** The running physical address. */
  lemma PhysicalStep(pa: nat, t: nat, n: nat, at: nat)
    requires Aligned(pa) && t < n && at == pa + t * PAGE_SIZE && pa + n * PAGE_SIZE <= ONE_GB
    ensures Aligned(at) && (at + PAGE_SIZE) % U64 == pa + (t + 1) * PAGE_SIZE
  {
  }

  /** The numbers behind the kernel range, KERNEL_BASE up to KERNEL_BASE + 1 GB. */
  lemma KernelRange()
    ensures PageOf(KERNEL_BASE) == 0x400_0000 && Index4(KERNEL_BASE) == 256 && Index3(KERNEL_BASE) == 0
    ensures P2V(ONE_GB) == KERNEL_BASE + ONE_GB && V2P(KERNEL_BASE) == 0 && Aligned(0)
    ensures PaDown(KERNEL_BASE) == KERNEL_BASE && PaUp(P2V(ONE_GB)) == P2V(ONE_GB)
    ensures RangePages(KERNEL_BASE, P2V(ONE_GB)) == ENTRIES && Rounds(KERNEL_BASE, P2V(ONE_GB)) == ENTRIES
    ensures RangeFits(KERNEL_BASE, P2V(ONE_GB)) && LoopEnds(KERNEL_BASE, P2V(ONE_GB))
    ensures PageOffset(2, PageOf(KERNEL_BASE)) >= ENTRIES
    ensures Attributes(3) && Attributes(7)
  {
  }

  /** No aligned address lies strictly between an aligned one and the one before it. */
  lemma AlignedGap(a: nat)
    requires Aligned(a) && a >= PAGE_SIZE
    ensures forall f: nat :: Aligned(f) && a - PAGE_SIZE <= f < a ==> f == a - PAGE_SIZE
  {
  }
}
