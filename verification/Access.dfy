/** What a program may do with a page: the write and user bits of all three entries on the way to
    it count (section 4.6 of the Intel SDM volume 3A), and the tables' own bits come from the
    attribute they were made with. */
module Access {
  import opened Common
  import opened Paging
  import opened Ownership

  datatype Rights = Rights(write: bool, user: bool)

  const ALL_RIGHTS := Rights(true, true)
  const KERNEL_ONLY := Rights(true, false)

  function RightsOf(w: nat): Rights {
    Rights(Bit(w, 1), Bit(w, 2))
  }

  /** Bit 7 says that the entry maps a page and the walk ends here. */
  predicate MapsPage(w: nat) {
    Bit(w, 7)
  }

  function Meet(a: Option<Rights>, b: Option<Rights>): Option<Rights> {
    if a.Some? && b.Some? then Some(Rights(a.value.write && b.value.write, a.value.user && b.value.user)) else None
  }

  /** Entry k of frame f, or 0. */
  function WordIn(m: Frames, f: nat, k: nat): nat {
    if f in m && k < |m[f]| then m[f][k] else 0
  }

  /** What an entry that points to a table lets through. */
  function Through(w: nat): Option<Rights> {
    if Present(w) && !MapsPage(w) then Some(RightsOf(w)) else None
  }

  /** What the entry of a page lets through. */
  function AtPage(w: nat): Option<Rights> {
    if Present(w) && MapsPage(w) then Some(RightsOf(w)) else None
  }

  /** What the processor lets a program do with page q under the PML4 table r. */
  function Allowed(m: Frames, r: nat, q: nat): Option<Rights> {
    var i, j, k := q / 0x4_0000, q / ENTRIES % ENTRIES, q % ENTRIES;
    var p, d := Next(m, r, i), PdAt(m, r, i, j);
    if p.None? || d.None? then None
    else Meet(AtPage(WordIn(m, d.value, k)), Meet(Through(WordIn(m, p.value, j)), Through(WordIn(m, r, i))))
  }

  /** Frame f is the PML4 table of r or a table one level down. */
  predicate Upper(o: Owners, f: nat, r: nat) {
    f in o && ((f == r && o[f].Root?) || (o[f].Pdpt? && o[f].root == r))
  }

  /** From m0 to m1 no entry that pointed to a table of r has changed, and the new ones have
      exactly the attribute a in their low 12 bits. */
  ghost predicate Carry(m0: Frames, o0: Owners, m1: Frames, o1: Owners, r: nat, a: nat) {
    && (forall f :: Upper(o0, f, r) ==> f in o1 && o1[f] == o0[f])
    && forall f, k :: Upper(o1, f, r) && 0 <= k < ENTRIES ==>
         if Upper(o0, f, r) && Present(WordIn(m0, f, k)) then WordIn(m1, f, k) == WordIn(m0, f, k)
         else Present(WordIn(m1, f, k)) ==> WordIn(m1, f, k) % 4096 == a
  }

  /** All entries that point to tables of r have the attribute a. */
  ghost predicate AllCarry(m: Frames, o: Owners, r: nat, a: nat) {
    forall f, k :: Upper(o, f, r) && 0 <= k < ENTRIES && Present(WordIn(m, f, k)) ==> WordIn(m, f, k) % 4096 == a
  }

  // ---------------------------------------------------------------------------- bits

  lemma {:induction false} OrBit(a: nat, b: nat, k: nat)
    ensures Bit(BitOr(a, b), k) == (Bit(a, k) || Bit(b, k))
  {
    if a == 0 && b == 0 {
      ZeroBit(k);
    } else if k > 0 {
      OrBit(a / 2, b / 2, k - 1);
    }
  }

  lemma {:induction false} ZeroBit(k: nat)
    ensures !Bit(0, k)
  {
    if k > 0 {
      ZeroBit(k - 1);
    }
  }

  /** A multiple of 2^n does not reach the bits below n. */
  lemma {:induction false} LowBit(q: nat, x: nat, n: nat, k: nat)
    requires k < n
    ensures Bit(q * Pow2(n) + x, k) == Bit(x, k)
  {
    var h := q * Pow2(n - 1);
    assert q * Pow2(n) == 2 * h;
    assert (2 * h + x) / 2 == h + x / 2 && (2 * h + x) % 2 == x % 2;
    if k > 0 {
      LowBit(q, x / 2, n - 1, k - 1);
    }
  }

  /** The entry of a page has the attribute's rights and says that it maps a page. */
  lemma LeafRights(pa: nat, a: nat)
    requires Aligned(pa) && Attributes(a)
    ensures AtPage(LeafWord(pa, a)) == Some(RightsOf(a))
  {
    LeafWordMaps(pa, a);
    Pow2Values();
    hide BitOr, Pow2, LeafWord;
    var low := BitOr(a, PTE_ENTRY);
    LowBit(pa / PAGE_SIZE, low, 21, 1);
    LowBit(pa / PAGE_SIZE, low, 21, 2);
    LowBit(pa / PAGE_SIZE, low, 21, 7);
    OrBit(a, PTE_ENTRY, 1);
    OrBit(a, PTE_ENTRY, 2);
    OrBit(a, PTE_ENTRY, 7);
    assert !Bit(PTE_ENTRY, 1) && !Bit(PTE_ENTRY, 2) && Bit(PTE_ENTRY, 7);
  }

  /** An entry of a table has the attribute in its low 12 bits. */
  lemma TableCarries(p: nat, a: nat)
    requires FrameAddress(p) && Attributes(a)
    ensures TableWord(p, a) % 4096 == a
  {
    hide BitOr, Pow2;
    FrameOffset(p);
    Pow2Values();
    OrAligned(p - KERNEL_BASE, a, 12);
    LowTwelve(p - KERNEL_BASE, a);
  }

  lemma LowTwelve(x: nat, a: nat)
    requires x % 4096 == 0 && a < 4096
    ensures (x + a) % 4096 == a
  {
  }

  /** Such an entry lets through what the attribute says. */
  lemma CarriedRights(w: nat, a: nat)
    requires w % 4096 == a && Present(w) && !MapsPage(a)
    ensures Through(w) == Some(RightsOf(a))
  {
    Pow2Values();
    hide Pow2;
    LowBit(w / 4096, a, 12, 1);
    LowBit(w / 4096, a, 12, 2);
    LowBit(w / 4096, a, 12, 7);
  }

  // ------------------------------------------------------------------------ keeping track

  lemma CarryReflexive(m: Frames, o: Owners, r: nat, a: nat)
    ensures Carry(m, o, m, o, r, a)
  {
  }

  lemma CarryTransitive(m0: Frames, o0: Owners, m1: Frames, o1: Owners, m2: Frames, o2: Owners, r: nat, a: nat)
    requires Carry(m0, o0, m1, o1, r, a) && Carry(m1, o1, m2, o2, r, a)
    ensures Carry(m0, o0, m2, o2, r, a)
  {
    hide WordIn, Present;
  }

  /** Hanging a new table behind an empty entry of an upper table of r. */
  lemma TableAdded(m: Frames, o: Owners, r: nat, t: nat, i: nat, p: nat, a: nat, use: Owner, m': Frames, o': Owners)
    requires o.Keys == m.Keys && Upper(o, t, r) && i < |m[t]| && !Present(WordIn(m, t, i))
    requires p in o && o[p].Free? && FrameAddress(p) && Attributes(a) && (use.Pdpt? || use.Pd?)
    requires m' == Put(m[p := Zeros()], t, i, TableWord(p, a)) && o' == o[p := use]
    ensures Carry(m, o, m', o', r, a)
  {
    TableCarries(p, a);
    hide TableWord;
  }

  /** Writing frames that are no upper tables of r, before or after. */
  lemma UpperKept(m: Frames, o: Owners, m': Frames, o': Owners, r: nat, a: nat)
    requires forall f :: Upper(o, f, r) || Upper(o', f, r) ==> f in o && f in o' && o'[f] == o[f] && f in m && f in m' && m'[f] == m[f]
    ensures Carry(m, o, m', o', r, a)
  {
  }

  /** The upper tables of a new address space have only the new entries. */
  lemma FromNothing(m0: Frames, o0: Owners, m1: Frames, o1: Owners, r: nat, a: nat)
    requires Carry(m0, o0, m1, o1, r, a)
    requires forall f, k :: Upper(o0, f, r) && 0 <= k < ENTRIES ==> !Present(WordIn(m0, f, k))
    ensures AllCarry(m1, o1, r, a)
  {
    hide WordIn, Present;
  }

  // ----------------------------------------------------------------------- what is allowed

  /** What the tables that were there before let through on the way to page q; a missing one
      takes nothing away. */
  function Before(m: Frames, r: nat, q: nat): Option<Rights> {
    var i, j := q / 0x4_0000, q / ENTRIES % ENTRIES;
    var p := Next(m, r, i);
    if p.None? then Some(ALL_RIGHTS)
    else Meet(if Present(WordIn(m, p.value, j)) then Through(WordIn(m, p.value, j)) else Some(ALL_RIGHTS), Through(WordIn(m, r, i)))
  }

  lemma NextWord(m: Frames, t: nat, i: nat)
    ensures Next(m, t, i) == if Present(WordIn(m, t, i)) then Some(P2V(PdeAddr(WordIn(m, t, i)))) else None
  {
  }

  lemma LeafIsWord(m: Frames, r: nat, q: nat)
    requires PageLeaf(m, r, q).Some?
    ensures var i, j, k := q / 0x4_0000, q / ENTRIES % ENTRIES, q % ENTRIES;
            && Next(m, r, i).Some? && PdAt(m, r, i, j).Some? && PdAt(m, r, i, j) == Next(m, Next(m, r, i).value, j)
            && PageLeaf(m, r, q) == Some(WordIn(m, PdAt(m, r, i, j).value, k))
  {
  }

  /** A page mapped with attribute a through new and old tables: a program may do with it what
      the attribute says, as far as the old tables let it. */
  lemma MappedAllowed(m0: Frames, o0: Owners, m1: Frames, o1: Owners, r: nat, q: nat, pa: nat, a: nat)
    requires Carry(m0, o0, m1, o1, r, a) && TreeOk(m0, o0, r) && TreeOk(m1, o1, r)
    requires r in o0 && o0[r].Root? && q < PAGES && Aligned(pa) && Attributes(a) && !MapsPage(a)
    requires PageLeaf(m1, r, q) == Some(LeafWord(pa, a))
    ensures Allowed(m1, r, q) == Meet(Some(RightsOf(a)), Before(m0, r, q))
  {
    var i, j := q / 0x4_0000, q / ENTRIES % ENTRIES;
    assert i < ENTRIES && j < ENTRIES;
    LeafRights(pa, a);
    LeafIsWord(m1, r, q);
    NextWord(m0, r, i);
    NextWord(m1, r, i);
    assert Upper(o0, r, r) && Upper(o1, r, r);
    var p := Next(m1, r, i).value;
    NextWord(m1, p, j);
    assert Upper(o1, p, r);
    TopEntry(m0, o0, m1, o1, r, i, a);
    MidEntry(m0, o0, m1, o1, r, i, j, a);
    hide PageLeaf, LeafWord, WordIn, TreeOk, Carry, Upper, RightsOf, MapsPage, Present, PdeAddr, P2V;
  }

  lemma TopEntry(m0: Frames, o0: Owners, m1: Frames, o1: Owners, r: nat, i: nat, a: nat)
    requires Carry(m0, o0, m1, o1, r, a) && r in o0 && o0[r].Root? && i < ENTRIES && Next(m1, r, i).Some? && !MapsPage(a)
    ensures if Next(m0, r, i).Some? then WordIn(m1, r, i) == WordIn(m0, r, i) && Next(m1, r, i) == Next(m0, r, i)
            else Through(WordIn(m1, r, i)) == Some(RightsOf(a))
  {
    NextWord(m0, r, i);
    NextWord(m1, r, i);
    assert Upper(o0, r, r) && Upper(o1, r, r);
    if Next(m0, r, i).None? {
      CarriedRights(WordIn(m1, r, i), a);
    }
  }

  lemma MidEntry(m0: Frames, o0: Owners, m1: Frames, o1: Owners, r: nat, i: nat, j: nat, a: nat)
    requires Carry(m0, o0, m1, o1, r, a) && TreeOk(m0, o0, r) && TreeOk(m1, o1, r) && r in o0 && o0[r].Root?
    requires i < ENTRIES && j < ENTRIES && Next(m1, r, i).Some? && Next(m1, Next(m1, r, i).value, j).Some? && !MapsPage(a)
    ensures var p := Next(m1, r, i).value;
            if Next(m0, r, i).Some? && Present(WordIn(m0, p, j)) then WordIn(m1, p, j) == WordIn(m0, p, j)
            else Through(WordIn(m1, p, j)) == Some(RightsOf(a))
  {
    TopEntry(m0, o0, m1, o1, r, i, a);
    var p := Next(m1, r, i).value;
    NextWord(m1, p, j);
    assert Upper(o1, p, r);
    if Next(m0, r, i).Some? {
      assert Upper(o0, p, r);
    } else {
      assert o1[p] == Pdpt(r, i);
      assert !Upper(o0, p, r);
    }
    if !(Next(m0, r, i).Some? && Present(WordIn(m0, p, j))) {
      CarriedRights(WordIn(m1, p, j), a);
    }
  }

  /** A page mapped as before, through tables that were there before. */
  lemma AllowedKept(m0: Frames, o0: Owners, m1: Frames, o1: Owners, r: nat, q: nat, a: nat)
    requires Carry(m0, o0, m1, o1, r, a) && TreeOk(m0, o0, r) && r in o0 && o0[r].Root? && q < PAGES
    requires PageLeaf(m0, r, q).Some? && PageLeaf(m1, r, q) == PageLeaf(m0, r, q)
    ensures Allowed(m1, r, q) == Allowed(m0, r, q)
  {
    var i, j := q / 0x4_0000, q / ENTRIES % ENTRIES;
    assert i < ENTRIES && j < ENTRIES;
    LeafIsWord(m0, r, q);
    LeafIsWord(m1, r, q);
    NextWord(m0, r, i);
    NextWord(m1, r, i);
    assert Upper(o0, r, r) && Upper(o1, r, r);
    var p := Next(m0, r, i).value;
    assert Upper(o0, p, r) && Upper(o1, p, r);
    NextWord(m0, p, j);
    hide PageLeaf, WordIn, TreeOk, Carry, Upper, RightsOf, MapsPage, Present, PdeAddr, P2V, Next, PdAt;
  }

  lemma NotMapped(m: Frames, r: nat, q: nat)
    requires PageLeaf(m, r, q).None?
    ensures Allowed(m, r, q).None?
  {
  }

  /** In user mode the user page can be read and written, and nothing else reached; the kernel can
      write every page that is mapped. */
  ghost predicate Permits(m: Frames, r: nat) {
    forall q :: 0 <= q < PAGES ==>
      Allowed(m, r, q) == if PageLeaf(m, r, q).None? then None else Some(if q == USER_PAGE then ALL_RIGHTS else KERNEL_ONLY)
  }

  /** One entry of an address space whose tables were all made for the kernel. */
  lemma KernelEntry(m: Frames, o: Owners, r: nat, q: nat, pa: nat)
    requires AllCarry(m, o, r, ATTR_KERNEL) && TreeOk(m, o, r) && r in o && o[r].Root? && q < PAGES && Aligned(pa)
    requires PageLeaf(m, r, q) == Some(LeafWord(pa, ATTR_KERNEL))
    ensures Allowed(m, r, q) == Some(KERNEL_ONLY)
  {
    var i, j := q / 0x4_0000, q / ENTRIES % ENTRIES;
    assert i < ENTRIES && j < ENTRIES;
    KernelBits();
    LeafRights(pa, ATTR_KERNEL);
    LeafIsWord(m, r, q);
    NextWord(m, r, i);
    var p := Next(m, r, i).value;
    NextWord(m, p, j);
    assert Upper(o, r, r) && Upper(o, p, r);
    CarriedRights(WordIn(m, r, i), ATTR_KERNEL);
    CarriedRights(WordIn(m, p, j), ATTR_KERNEL);
    hide PageLeaf, LeafWord, WordIn, TreeOk, AllCarry, Upper, RightsOf, MapsPage, Present, PdeAddr, P2V, Next, PdAt;
  }

  lemma KernelBits()
    ensures Attributes(ATTR_KERNEL) && !MapsPage(ATTR_KERNEL) && RightsOf(ATTR_KERNEL) == KERNEL_ONLY
    ensures Attributes(ATTR_USER) && !MapsPage(ATTR_USER) && RightsOf(ATTR_USER) == ALL_RIGHTS
  {
    assert !Bit(3, 7) && Bit(3, 1) && !Bit(3, 2);
    assert !Bit(7, 7) && Bit(7, 1) && Bit(7, 2);
  }

  /** After setup_kvm. */
  lemma KernelPermits(m: Frames, o: Owners, r: nat)
    requires AllCarry(m, o, r, ATTR_KERNEL) && TreeOk(m, o, r) && r in o && o[r].Root? && MapsExactly(m, r, None)
    ensures Permits(m, r)
  {
    hide AllCarry, TreeOk, Allowed, LeafWord, PageLeaf, PageOffset;
    forall q | 0 <= q < PAGES
      ensures Allowed(m, r, q) == if PageLeaf(m, r, q).None? then None else Some(if q == USER_PAGE then ALL_RIGHTS else KERNEL_ONLY)
    {
      NotUserPage(q);
      if PageLeaf(m, r, q).None? {
        NotMapped(m, r, q);
      } else {
        AlignedPage(PageOffset(q, PageOf(KERNEL_BASE)));
        KernelEntry(m, o, r, q, PageOffset(q, PageOf(KERNEL_BASE)) * PAGE_SIZE);
      }
    }
  }

  lemma AlignedPage(k: nat)
    ensures Aligned(k * PAGE_SIZE)
  {
  }

  lemma NotUserPage(q: nat)
    requires q < PAGES
    ensures PageOffset(q, PageOf(KERNEL_BASE)) >= 0
    ensures PageOffset(q, PageOf(KERNEL_BASE)) < ENTRIES ==> q != USER_PAGE
  {
    KernelRange();
  }

  /** And after the user page has been mapped. */
  lemma UserPermits(m0: Frames, o0: Owners, m1: Frames, o1: Owners, r: nat, pa: nat)
    requires Permits(m0, r) && MapsExactly(m0, r, None) && Next(m0, r, 0).None? && TreeOk(m0, o0, r) && TreeOk(m1, o1, r)
    requires r in o0 && o0[r].Root? && Carry(m0, o0, m1, o1, r, ATTR_USER) && Aligned(pa)
    requires RangeMapped(m0, m1, r, USER_PAGE, 1, pa, ATTR_USER)
    ensures Permits(m1, r)
  {
    hide Carry, TreeOk, Allowed, LeafWord, PageLeaf, PageOffset, PageOf, Next;
    KernelBits();
    UserNumbers();
    assert PageOffset(USER_PAGE, USER_PAGE) == 0 && pa + 0 * PAGE_SIZE == pa;
    forall q | 0 <= q < PAGES
      ensures Allowed(m1, r, q) == if PageLeaf(m1, r, q).None? then None else Some(if q == USER_PAGE then ALL_RIGHTS else KERNEL_ONLY)
    {
      if PageLeaf(m1, r, q).None? {
        NotMapped(m1, r, q);
      } else if q == USER_PAGE {
        MappedAllowed(m0, o0, m1, o1, r, q, pa, ATTR_USER);
      } else {
        AllowedKept(m0, o0, m1, o1, r, q, ATTR_USER);
      }
    }
  }

  /** A root without tables below it has no entries. */
  lemma NothingThere(m: Frames, o: Owners, r: nat)
    requires forall i :: 0 <= i < ENTRIES ==> Next(m, r, i).None?
    requires forall f :: f in o && Belongs(o[f], f, r) ==> f == r
    ensures forall f, k :: Upper(o, f, r) && 0 <= k < ENTRIES ==> !Present(WordIn(m, f, k))
  {
    forall f, k | Upper(o, f, r) && 0 <= k < ENTRIES
      ensures !Present(WordIn(m, f, k))
    {
      assert Belongs(o[f], f, r);
      NextWord(m, r, k);
    }
  }

  /** An address space whose tables have kept their contents. */
  lemma AllowedSame(m0: Frames, o0: Owners, m1: Frames, r: nat, q: nat)
    requires TreeOk(m0, o0, r) && r in o0 && o0[r].Root? && o0.Keys == m0.Keys == m1.Keys && q < PAGES
    requires forall f :: f in o0 && (f == r || IsTableOf(o0[f], r)) ==> m1[f] == m0[f]
    ensures Allowed(m1, r, q) == Allowed(m0, r, q)
  {
    var i, j := q / 0x4_0000, q / ENTRIES % ENTRIES;
    assert i < ENTRIES && j < ENTRIES;
    NextWord(m0, r, i);
    NextWord(m1, r, i);
    if Next(m0, r, i).Some? {
      var p := Next(m0, r, i).value;
      assert IsTableOf(o0[p], r);
      NextWord(m0, p, j);
      NextWord(m1, p, j);
      if PdAt(m0, r, i, j).Some? {
        assert IsTableOf(o0[PdAt(m0, r, i, j).value], r);
      }
    }
  }

  lemma PermitsSame(m0: Frames, o0: Owners, m1: Frames, r: nat)
    requires Permits(m0, r) && TreeOk(m0, o0, r) && r in o0 && o0[r].Root? && o0.Keys == m0.Keys == m1.Keys
    requires forall f :: f in o0 && (f == r || IsTableOf(o0[f], r)) ==> m1[f] == m0[f]
    requires forall q :: 0 <= q < PAGES ==> PageLeaf(m1, r, q) == PageLeaf(m0, r, q)
    ensures Permits(m1, r)
  {
    hide TreeOk, Allowed, PageLeaf;
    forall q | 0 <= q < PAGES
      ensures Allowed(m1, r, q) == Allowed(m0, r, q)
    {
      AllowedSame(m0, o0, m1, r, q);
    }
  }
}
