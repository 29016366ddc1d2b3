/** The frame allocator and the address spaces of the kernel (memory.c).  Tables, user pages
    and the links of the free list all live in the same frames.

    A failed ASSERT halts the kernel, so what an ASSERT demands is a precondition here, and
    the callers below prove that they meet it. */
module Memory {
  import opened Common
  import opened Paging
  import opened Ownership
  import opened Access

  const USER_BASE := 0x40_0000

  /** Element k of a list of free frames, or NULL past its end. */
  function At(s: seq<nat>, k: nat): nat {
    if k < |s| then s[k] else 0
  }

  /** a is some elements followed by b. */
  ghost predicate Suffix(a: seq<nat>, b: seq<nat>) {
    |b| <= |a| && a[|a| - |b|..] == b
  }

  lemma SuffixReflexive(a: seq<nat>)
    ensures Suffix(a, a)
  {
  }

  lemma SuffixPush(a: seq<nat>, x: nat, b: seq<nat>)
    requires Suffix(a, b)
    ensures Suffix([x] + a, b)
  {
    assert ([x] + a)[|a| + 1 - |b|..] == a[|a| - |b|..];
  }

  lemma SuffixTransitive(a: seq<nat>, b: seq<nat>, c: seq<nat>)
    requires Suffix(a, b) && Suffix(b, c)
    ensures Suffix(a, c)
  {
    assert a[|a| - |b|..][|b| - |c|..] == a[|a| - |c|..];
  }

  /** The frames in list are exactly the free ones, and each holds the address of the next. */
  ghost predicate FreeListOk(m: Frames, o: Owners, first: nat, list: seq<nat>) {
    && first == At(list, 0)
    && NoDup(list)
    && (forall f :: f in o ==> (o[f].Free? <==> f in list))
    && (forall k :: 0 <= k < |list| ==> list[k] in m && 0 < |m[list[k]]| && m[list[k]][0] == At(list, k + 1))
  }

  lemma PushKeepsList(m: Frames, o: Owners, first: nat, list: seq<nat>, v: nat)
    requires FreeListOk(m, o, first, list) && o.Keys == m.Keys && v in o && !o[v].Free? && 0 < |m[v]|
    ensures FreeListOk(Put(m, v, 0, first), o[v := Free], v, [v] + list)
  {
    hide NoDup;
    PushKeepsNoDup(list, v);
    var m' := Put(m, v, 0, first);
    forall k | 0 <= k < |list|
      ensures list[k] != v && m'[list[k]] == m[list[k]]
    {
      assert list[k] in list;
    }
    var list' := [v] + list;
    forall k | 0 <= k < |list'|
      ensures list'[k] in m' && 0 < |m'[list'[k]]| && m'[list'[k]][0] == At(list', k + 1)
    {
      assert k > 0 ==> list'[k] == list[k - 1];
    }
  }

  lemma PushKeepsNoDup(list: seq<nat>, v: nat)
    requires NoDup(list) && v !in list
    ensures NoDup([v] + list)
  {
  }

  lemma PopKeepsList(m: Frames, o: Owners, first: nat, list: seq<nat>)
    requires FreeListOk(m, o, first, list) && o.Keys == m.Keys && forall f :: f in m ==> f != 0
    ensures first != 0 <==> list != []
    ensures list != [] ==>
              && first == list[0] && first in o && o[first].Free? && 0 < |m[first]|
              && FreeListOk(m, o[first := Held(0)], m[first][0], list[1..])
  {
    if list != [] {
      HeadFacts(m, o, first, list);
      TailMembers(list);
      TailLinked(m, list);
      hide NoDup;
    }
  }

  lemma HeadFacts(m: Frames, o: Owners, first: nat, list: seq<nat>)
    requires FreeListOk(m, o, first, list) && list != []
    ensures first == list[0] && NoDup(list) && first in m && 0 < |m[first]| && m[first][0] == At(list[1..], 0) && Linked(m, list)
  {
  }

  /** Each frame of the list links to the next. */
  ghost predicate Linked(m: Frames, list: seq<nat>) {
    forall k :: 0 <= k < |list| ==> list[k] in m && 0 < |m[list[k]]| && m[list[k]][0] == At(list, k + 1)
  }

  lemma TailMembers(list: seq<nat>)
    requires NoDup(list) && list != []
    ensures NoDup(list[1..]) && forall f :: f in list[1..] <==> f in list && f != list[0]
  {
    forall f | f in list && f != list[0]
      ensures f in list[1..]
    {
      var k :| 0 <= k < |list| && list[k] == f;
      assert list[1..][k - 1] == f;
    }
  }

  lemma TailLinked(m: Frames, list: seq<nat>)
    requires Linked(m, list) && list != []
    ensures Linked(m, list[1..])
  {
    forall k | 0 <= k < |list[1..]|
      ensures list[1..][k] in m && 0 < |m[list[1..][k]]| && m[list[1..][k]][0] == At(list[1..], k + 1)
    {
      assert list[1..][k] == list[k + 1];
    }
  }

  lemma ReownKeepsList(m: Frames, o: Owners, first: nat, list: seq<nat>, f: nat, use: Owner)
    requires FreeListOk(m, o, first, list) && f in o && !o[f].Free? && !use.Free?
    ensures FreeListOk(m, o[f := use], first, list)
  {
  }

  /** Overwriting a frame in use does not touch the free list. */
  lemma NotFreePage(m: Frames, o: Owners, first: nat, list: seq<nat>, page: nat, m': Frames)
    requires FreeListOk(m, o, first, list) && page in o && !o[page].Free? && page in m' && m' == m[page := m'[page]]
    ensures FreeListOk(m', o, first, list)
  {
  }

  // ------------------------------------------------------------------ bytes of a frame

  function ByteAt(w: nat, i: nat): nat {
    if i == 0 then w % 256 else ByteAt(w / 256, i - 1)
  }

  /** Byte k of a frame; words are little-endian. */
  function PageByte(frame: seq<nat>, k: nat): nat
    requires k < 8 * |frame|
  {
    ByteAt(frame[k / 8], k % 8)
  }

  /** The frame holds these bytes, and zeros behind them. */
  ghost predicate HoldsBytes(frame: seq<nat>, data: seq<byte>) {
    |frame| == WORDS && forall k :: 0 <= k < PAGE_SIZE ==> PageByte(frame, k) == if k < |data| then data[k] else 0
  }

  function WordOf(bytes: seq<byte>): nat {
    if bytes == [] then 0 else bytes[0] + 256 * WordOf(bytes[1..])
  }

  /** The words that the bytes make, the last filled up with zeros. */
  function Packed(data: seq<byte>): (r: seq<nat>)
    ensures |r| == (|data| + 7) / 8
  {
    seq((|data| + 7) / 8, k requires 0 <= k < (|data| + 7) / 8 => WordOf(data[8 * k..Min(8 * k + 8, |data|)]))
  }

  lemma {:induction false} WordBytes(bytes: seq<byte>, i: nat)
    ensures ByteAt(WordOf(bytes), i) == if i < |bytes| then bytes[i] else 0
    decreases i
  {
    if bytes == [] {
      if i > 0 {
        WordBytes(bytes, i - 1);
      }
    } else {
      var rest := WordOf(bytes[1..]);
      var low: nat := bytes[0];
      assert (low + 256 * rest) % 256 == low && (low + 256 * rest) / 256 == rest;
      if i > 0 {
        WordBytes(bytes[1..], i - 1);
      }
    }
  }

  lemma PackedHolds(data: seq<byte>)
    requires |data| <= PAGE_SIZE
    ensures |Packed(data)| <= WORDS && HoldsBytes(Packed(data) + Zeros()[|Packed(data)|..], data)
  {
    var frame := Packed(data) + Zeros()[|Packed(data)|..];
    forall k | 0 <= k < PAGE_SIZE
      ensures PageByte(frame, k) == if k < |data| then data[k] else 0
    {
      PackedByte(data, k);
    }
  }

  lemma PackedByte(data: seq<byte>, k: nat)
    requires |data| <= PAGE_SIZE && k < PAGE_SIZE
    ensures |Packed(data)| <= WORDS
    ensures PageByte(Packed(data) + Zeros()[|Packed(data)|..], k) == if k < |data| then data[k] else 0
  {
    hide ByteAt, WordOf;
    var w, i, n := k / 8, k % 8, |Packed(data)|;
    assert k == 8 * w + i;
    if w < n {
      WordBytes(data[8 * w..Min(8 * w + 8, |data|)], i);
    } else {
      WordBytes([], i);
      NoBytes();
      assert (Packed(data) + Zeros()[n..])[w] == 0;
    }
  }

  lemma NoBytes()
    ensures WordOf([]) == 0
  {
  }

  /** Taking or writing a user frame touches no table. */
  lemma UserTaken(m: Frames, o: Owners, r: nat, p: nat, m': Frames, o': Owners)
    requires o.Keys == m.Keys && p in o && (o[p].Free? || o[p].User?) && p in m' && m' == m[p := m'[p]]
    requires o' == o[p := User(r, USER_PAGE)] || o' == o
    ensures Carry(m, o, m', o', r, ATTR_USER)
  {
    UpperKept(m, o, m', o', r, ATTR_USER);
  }

  lemma UserPagePermits(m0: Frames, o0: Owners, m1: Frames, o1: Owners, r: nat, page: nat)
    requires MapsOk(m0, o0) && MapsOk(m1, o1) && r in o0 && o0[r].Root? && r in o1 && o1[r].Root?
    requires Carry(m0, o0, m1, o1, r, ATTR_USER) && RangeMapped(m0, m1, r, USER_PAGE, 1, V2P(page), ATTR_USER)
    requires FrameAddress(page)
    ensures Permits(m0, r) && MapsExactly(m0, r, None) && Next(m0, r, 0).None? ==> Permits(m1, r)
  {
    hide TreeOk, Carry, RangeMapped, MapsExactly, Permits;
    if Permits(m0, r) && MapsExactly(m0, r, None) && Next(m0, r, 0).None? {
      UserFrame(page);
      UserPermits(m0, o0, m1, o1, r, V2P(page));
    }
  }

  lemma NoNext(m: Frames, r: nat)
    requires forall i, j :: 0 <= i < ENTRIES && 0 <= j < ENTRIES ==> Missing(m, r, i, j) == 2
    ensures forall i :: 0 <= i < ENTRIES ==> Next(m, r, i).None?
  {
    forall i | 0 <= i < ENTRIES
      ensures Next(m, r, i).None?
    {
      assert Missing(m, r, i, 0) == 2;
    }
  }

  class Memory {
    /** &end */
    const kernelEnd: nat
    /** free_memory.next */
    var freeNext: nat
    /** The contents of each frame, by virtual address. */
    var mem: Frames
    ghost var free: seq<nat>
    ghost var owner: Owners

    /** The allocator is in order. */
    ghost predicate AllocOk()
      reads this
    {
      FramesOk(mem, owner, kernelEnd) && FreeListOk(mem, owner, freeNext, free)
    }

    ghost predicate Valid()
      reads this
    {
      AllocOk() && MapsOk(mem, owner)
    }

    ghost predicate IsRoot(r: nat)
      reads this
    {
      r in owner && owner[r].Root?
    }

    /** Before free_region: frames with arbitrary contents, none given to the allocator. */
    constructor (kernelEnd: nat, ram: Frames)
      requires forall f :: f in ram ==> FrameAddress(f) && kernelEnd <= f && |ram[f]| == WORDS
      ensures Clean() && mem == ram && free == [] && forall f :: f in owner ==> owner[f].Boot?
    {
      this.kernelEnd := kernelEnd;
      mem, freeNext := ram, 0;
      free, owner := [], map f | f in ram :: Boot;
    }

    /** Reads a word of a frame: the frame must not be on the free list. */
    method Load(f: nat, i: nat) returns (w: nat)
      requires AllocOk() && f in owner && !owner[f].Free? && i < WORDS
      ensures w == mem[f][i]
    {
      w := mem[f][i];
    }

    /** Writes a word of a frame that is not on the free list. */
    method Store(f: nat, i: nat, w: nat)
      requires AllocOk() && f in owner && !owner[f].Free? && i < WORDS
      modifies `mem
      ensures AllocOk() && mem == Put(old(mem), f, i, w)
    {
      mem := Put(mem, f, i, w);
    }

    /** memset(f, 0, PAGE_SIZE) */
    method Clear(f: nat)
      requires AllocOk() && f in owner && !owner[f].Free?
      modifies `mem
      ensures AllocOk() && mem == old(mem)[f := Zeros()]
    {
      mem := mem[f := Zeros()];
    }

    method KFree(v: nat)
      requires AllocOk() && v in owner && !owner[v].Free?
      modifies this
      ensures AllocOk()
      ensures free == [v] + old(free) && owner == old(owner)[v := Free] && freeNext == v
      ensures mem == Put(old(mem), v, 0, old(freeNext))
    {
      assert Aligned(v) && v >= kernelEnd && v + PAGE_SIZE <= KERNEL_LIMIT;  // the source's ASSERTs
      PushKeepsList(mem, owner, freeNext, free, v);
      Store(v, 0, freeNext);
      freeNext := v;
      free := [v] + free;
      owner := owner[v := Free];
    }

    method KAlloc() returns (page: nat)
      requires AllocOk()
      modifies this
      ensures AllocOk() && mem == old(mem)
      ensures old(free) == [] ==> page == 0 && unchanged(this)
      ensures old(free) != [] ==> page == old(free)[0] && free == old(free)[1..] && owner == old(owner)[page := Held(0)]
      ensures page == 0 <==> old(free) == []
      ensures page == 0 || (page in owner && FrameAddress(page) && old(owner[page]).Free?)
    {
      hide FreeListOk;
      PopKeepsList(mem, owner, freeNext, free);
      page := freeNext;
      if page != 0 {
        FrameFacts(mem, owner, kernelEnd, page);
        assert page % PAGE_SIZE == 0 && page >= kernelEnd && page + PAGE_SIZE <= KERNEL_LIMIT;  // the source's ASSERTs
        freeNext := mem[page][0];
        free := free[1..];
        owner := owner[page := Held(0)];
      }
    }

    /** Takes a frame for a table, zeroes it and hangs it behind entry index of table t. */
    method NewTable(t: nat, index: nat, attribute: nat, ghost use: Owner) returns (table: nat)
      requires AllocOk() && t in owner && !owner[t].Free? && index < ENTRIES && Attributes(attribute) && !use.Free?
      modifies this
      ensures AllocOk() && (table == 0 <==> old(free) == []) && (table == 0 ==> unchanged(this))
      ensures table != 0 ==>
                && table == old(free)[0] && free == old(free)[1..] && table in old(mem) && old(owner[table]).Free?
                && owner == old(owner)[table := use]
                && mem == Put(old(mem)[table := Zeros()], t, index, TableWord(table, attribute))
                && Present(TableWord(table, attribute)) && P2V(PdeAddr(TableWord(table, attribute))) == table && FrameAddress(table)
    {
      hide FreeListOk;
      table := KAlloc();
      if table != 0 {
        Clear(table);
        Store(t, index, TableWord(table, attribute));
        ReownKeepsList(mem, owner, freeNext, free, table, use);
        owner := owner[table := use];
        TableWordPoints(table, attribute);
      }
    }

    method FindPml4tEntry(r: nat, v: nat, alloc: bool, attribute: nat) returns (pdptr: nat)
      requires Valid() && IsRoot(r) && (alloc ==> Attributes(attribute))
      modifies this
      ensures Valid() && Extends(old(mem), old(owner), mem, owner, r) && SameLeaves(old(mem), mem, r)
      ensures Carry(old(mem), old(owner), mem, owner, r, attribute)
      ensures forall i, j :: 0 <= i < ENTRIES && 0 <= j < ENTRIES ==> PdAt(mem, r, i, j) == old(PdAt(mem, r, i, j))
      ensures Next(mem, r, Index4(v)) == if pdptr == 0 then None else Some(pdptr)
      ensures var i, was := Index4(v), old(Next(mem, r, Index4(v)));
              if was.Some? then unchanged(this) && pdptr == was.value
              else if !alloc || old(free) == [] then unchanged(this) && pdptr == 0
              else
                && pdptr == old(free)[0] && free == old(free)[1..]
                && owner == old(owner)[pdptr := Pdpt(r, i)]
                && (forall i' :: 0 <= i' < ENTRIES ==> Next(mem, r, i') == if i' == i then Some(pdptr) else old(Next(mem, r, i')))
    {
      assert TreeOk(mem, owner, r);
      assert Next(mem, r, Index4(v)).Some? ==> Next(mem, r, Index4(v)).value in owner;
      FrameFacts(mem, owner, kernelEnd, r);
      if Next(mem, r, Index4(v)).Some? {
        FrameFacts(mem, owner, kernelEnd, Next(mem, r, Index4(v)).value);
      }
      hide TreeOk, MapsOk, Zeros, FreeListOk, Extends, FramesOk, Carry;
      var index := Index4(v);
      ghost var m0, o0 := mem, owner;
      CarryReflexive(m0, o0, r, attribute);
      var entry := Load(r, index);
      if Present(entry) {
        pdptr := P2V(PdeAddr(entry));
      } else if alloc {
        pdptr := NewTable(r, index, attribute, Pdpt(r, index));
        if pdptr != 0 {
          AddPdpt(m0, o0, r, index, pdptr, TableWord(pdptr, attribute), mem, owner);
          TableAdded(m0, o0, r, r, index, pdptr, attribute, Pdpt(r, index), mem, owner);
          ExtendsKeepsMaps(m0, o0, mem, owner, r);
        }
      } else {
        pdptr := 0;
      }
    }

    /** The second half of find_pdpt_entry, once the PDPT is known. */
    method FindInPdpt(r: nat, i: nat, j: nat, pdptr: nat, alloc: bool, attribute: nat) returns (pd: nat)
      requires Valid() && IsRoot(r) && (alloc ==> Attributes(attribute))
      requires i < ENTRIES && j < ENTRIES && Next(mem, r, i) == Some(pdptr)
      modifies this
      ensures Valid() && Extends(old(mem), old(owner), mem, owner, r) && SameLeaves(old(mem), mem, r)
      ensures Carry(old(mem), old(owner), mem, owner, r, attribute)
      ensures forall i' :: 0 <= i' < ENTRIES ==> Next(mem, r, i') == old(Next(mem, r, i'))
      ensures PdAt(mem, r, i, j) == if pd == 0 then None else Some(pd)
      ensures var was := old(PdAt(mem, r, i, j));
              if was.Some? then unchanged(this) && pd == was.value
              else if !alloc || old(free) == [] then unchanged(this) && pd == 0
              else
                && pd == old(free)[0] && free == old(free)[1..]
                && owner == old(owner)[pd := Pd(r, i, j)]
                && (forall i', j' :: 0 <= i' < ENTRIES && 0 <= j' < ENTRIES ==>
                      PdAt(mem, r, i', j') == if i' == i && j' == j then Some(pd) else old(PdAt(mem, r, i', j')))
    {
      hide Zeros;
      assert TreeOk(mem, owner, r) && pdptr in owner && owner[pdptr] == Pdpt(r, i);
      assert PdAt(mem, r, i, j).Some? ==> PdAt(mem, r, i, j).value in owner;
      FrameFacts(mem, owner, kernelEnd, pdptr);
      if PdAt(mem, r, i, j).Some? {
        FrameFacts(mem, owner, kernelEnd, PdAt(mem, r, i, j).value);
      }
      hide TreeOk, MapsOk, FreeListOk, Extends, FramesOk, Carry;
      ghost var m0, o0 := mem, owner;
      CarryReflexive(m0, o0, r, attribute);
      var entry := Load(pdptr, j);
      if Present(entry) {
        pd := P2V(PdeAddr(entry));
      } else if alloc {
        pd := NewTable(pdptr, j, attribute, Pd(r, i, j));
        if pd != 0 {
          AddPd(m0, o0, r, i, j, pdptr, pd, TableWord(pd, attribute), mem, owner);
          TableAdded(m0, o0, r, pdptr, j, pd, attribute, Pd(r, i, j), mem, owner);
          ExtendsKeepsMaps(m0, o0, mem, owner, r);
        }
      } else {
        pd := 0;
      }
    }

    method FindPdptEntry(r: nat, v: nat, alloc: bool, attribute: nat) returns (pd: nat)
      requires Valid() && IsRoot(r) && (alloc ==> Attributes(attribute))
      modifies this
      ensures Valid() && Extends(old(mem), old(owner), mem, owner, r) && SameLeaves(old(mem), mem, r)
      ensures Carry(old(mem), old(owner), mem, owner, r, attribute)
      ensures forall i, j :: 0 <= i < ENTRIES && 0 <= j < ENTRIES && (i != Index4(v) || j != Index3(v)) ==>
                PdAt(mem, r, i, j) == old(PdAt(mem, r, i, j))
      ensures forall i :: 0 <= i < ENTRIES && i != Index4(v) ==> Next(mem, r, i) == old(Next(mem, r, i))
      ensures PdAt(mem, r, Index4(v), Index3(v)) == if pd == 0 then None else Some(pd)
      ensures !alloc ==> unchanged(this)
      ensures alloc ==>
                var need := old(Missing(mem, r, Index4(v), Index3(v)));
                && (pd == 0 <==> |old(free)| < need)
                && free == old(free)[Min(need, |old(free)|)..]
                && (forall f :: f in owner && owner[f] != old(owner[f]) ==>
                      owner[f] == Pdpt(r, Index4(v)) || owner[f] == Pd(r, Index4(v), Index3(v)))
    {
      hide TreeOk, MapsOk, SameLeaves, FramesOk, FreeListOk, Carry;
      ghost var m0, o0 := mem, owner;
      var pdptr := FindPml4tEntry(r, v, alloc, attribute);
      if pdptr == 0 {
        return 0;
      }
      ghost var m1, o1 := mem, owner;
      pd := FindInPdpt(r, Index4(v), Index3(v), pdptr, alloc, attribute);
      ExtendsTransitive(m0, o0, m1, o1, mem, owner, r);
      SameLeavesTransitive(m0, m1, mem, r);
      CarryTransitive(m0, o0, m1, o1, mem, owner, r, attribute);
    }

    /** pd[index] = w, for the page directory behind entries i and j of r */
    method SetPde(r: nat, ghost i: nat, ghost j: nat, index: nat, pd: nat, w: nat)
      requires Valid() && IsRoot(r) && i < ENTRIES && j < ENTRIES && index < ENTRIES
      requires PdAt(mem, r, i, j) == Some(pd) && Leaf(mem, r, i, j, index) == None && Present(w)
      modifies `mem
      ensures Valid() && Extends(old(mem), owner, mem, owner, r) && forall a :: Carry(old(mem), owner, mem, owner, r, a)
      ensures forall i', j' :: 0 <= i' < ENTRIES && 0 <= j' < ENTRIES ==> PdAt(mem, r, i', j') == old(PdAt(mem, r, i', j'))
      ensures forall i', j', k' :: 0 <= i' < ENTRIES && 0 <= j' < ENTRIES && 0 <= k' < ENTRIES ==>
                Leaf(mem, r, i', j', k') == if i' == i && j' == j && k' == index then Some(w) else old(Leaf(mem, r, i', j', k'))
    {
      ghost var m0 := mem;
      TableInPlace(mem, owner, r, i, j, pd);
      hide TreeOk, MapsOk, FreeListOk;
      var entry := Load(pd, index);
      assert !Present(entry);  // the source's ASSERT against remapping
      Store(pd, index, w);
      SetLeaf(m0, owner, r, i, j, index, pd, w, mem);
      hide Extends;
      ExtendsKeepsMaps(m0, owner, mem, owner, r);
      forall a
        ensures Carry(m0, owner, mem, owner, r, a)
      {
        UpperKept(m0, owner, mem, owner, r, a);
      }
    }

    /** One round of the loop of map_pages. */
    method MapPage(r: nat, vstart: nat, pa: nat, attribute: nat) returns (ok: bool)
      requires Valid() && IsRoot(r) && Attributes(attribute) && Aligned(pa)
      requires PageLeaf(mem, r, PageOf(vstart)) == None
      modifies this
      ensures Valid() && Extends(old(mem), old(owner), mem, owner, r) && Carry(old(mem), old(owner), mem, owner, r, attribute)
      ensures IsRoot(r) && (ok ==> Missing(mem, r, Index4(vstart), Index3(vstart)) == 0)
      ensures forall q :: 0 <= q < PAGES ==>
                PageLeaf(mem, r, q) == if ok && q == PageOf(vstart) then Some(LeafWord(pa, attribute)) else old(PageLeaf(mem, r, q))
      ensures var i, j := Index4(vstart), Index3(vstart);
              var need := old(Missing(mem, r, i, j));
              (ok <==> need <= |old(free)|) && TookTables(old(owner), old(free), owner, free, r, i, j, need)
      ensures !ok ==> free == []
    {
      hide TreeOk, MapsOk, FreeListOk, FramesOk, LeafWord, Carry;
      IndexesOfPage(vstart);
      ghost var m0, o0 := mem, owner;
      var i, j, index := Index4(vstart), Index3(vstart), Index2(vstart);
      var pd := FindPdptEntry(r, vstart, true, attribute);
      ghost var m1, o1 := mem, owner;
      SamePageLeaves(m0, m1, r);
      if pd == 0 {
        return false;
      }
      LeafWordMaps(pa, attribute);
      SetPde(r, i, j, index, pd, LeafWord(pa, attribute));
      ExtendsTransitive(m0, o0, m1, o1, mem, owner, r);
      CarryTransitive(m0, o0, m1, o1, mem, owner, r, attribute);
      OneLeafOnePage(m1, mem, r, PageOf(vstart), Some(LeafWord(pa, attribute)));
      ok := true;
    }

    /** The pages that the loop of map_pages maps, from v on: by Paging.RangeEnds those of [v, e)
        exactly if the range fits. */
    ghost function MapRounds(v: nat, e: nat): nat {
      Rounds(PaDown(v), PaUp(e))
    }

    /** What the ASSERTs of map_pages demand, and that its loop ends by itself. */
    ghost predicate CanMap(r: nat, v: nat, e: nat, pa: nat)
      reads this
    {
      && v < e < U64 && !(U64 - 2 * PAGE_SIZE < e <= U64 - PAGE_SIZE)
      && Aligned(pa) && pa + RangePages(v, e) * PAGE_SIZE <= ONE_GB
      && forall q :: 0 <= q < PAGES && PageOffset(q, PageOf(v)) < MapRounds(v, e) ==> PageLeaf(mem, r, q) == None
    }

    method MapPages(r: nat, v: nat, e: nat, pa: nat, attribute: nat) returns (ok: bool)
      requires Valid() && IsRoot(r) && Attributes(attribute) && CanMap(r, v, e, pa)
      modifies this
      ensures Valid() && IsRoot(r) && Extends(old(mem), old(owner), mem, owner, r)
      // tables made on the way get the attribute; what that means for the pages is Access.MappedAllowed
      ensures Carry(old(mem), old(owner), mem, owner, r, attribute)
      ensures RangeFits(v, e) ==> MapRounds(v, e) == RangePages(v, e)
      ensures ok ==> RangeMapped(old(mem), mem, r, PageOf(v), MapRounds(v, e), pa, attribute)
      ensures !ok ==> free == [] && exists t :: 0 <= t < MapRounds(v, e) && RangeMapped(old(mem), mem, r, PageOf(v), t, pa, attribute)
      // a range within one page directory needs at most two tables, and fails exactly when they cannot be had
      ensures PageOf(v) % ENTRIES + MapRounds(v, e) <= ENTRIES ==>
                var need := old(Missing(mem, r, Index4(v), Index3(v)));
                && (ok <==> need <= |old(free)|)
                && TookTables(old(owner), old(free), owner, free, r, Index4(v), Index3(v), need)
    {
      hide TreeOk, MapsOk, FreeListOk, LeafWord, PageLeaf, PageOffset, PageOf, Index4, Index3;
      hide PaUp, PaDown, Aligned, RangeMapped, Missing, TookTables, GoesOn, PageAt, LoopEnds, RangeFits, Rounds, Extends, Carry;
      RangeBounds(v);
      RangeRounds(v, e);
      ExtendsReflexive(mem, owner, r);
      CarryReflexive(mem, owner, r, attribute);
      ZeroMapped(mem, r, PageOf(v), pa, attribute);
      var vstart, vend, p := PaDown(v), PaUp(e), pa;
      ghost var m0, o0, f0, v0, q0 := mem, owner, free, vstart, PageOf(v);
      ghost var n, i, j := MapRounds(v, e), Index4(v), Index3(v);
      ghost var need, oneDirectory := Missing(mem, r, i, j), q0 % ENTRIES + n <= ENTRIES;
      ghost var t := 0;
      assert PageOf(v0) == q0 && 1 <= n <= ENTRIES && pa + n * PAGE_SIZE <= ONE_GB;
      hide RangePages, FramesOk;
      while true
        invariant Valid() && IsRoot(r) && Extends(m0, o0, mem, owner, r) && Carry(m0, o0, mem, owner, r, attribute)
        invariant t < n && vstart == v0 + t * PAGE_SIZE && p == pa + t * PAGE_SIZE
        invariant RangeMapped(m0, mem, r, q0, t, pa, attribute)
        invariant t == 0 ==> mem == m0 && owner == o0 && free == f0
        invariant oneDirectory && 0 < t ==>
                    need <= |f0| && Missing(mem, r, i, j) == 0 && TookTables(o0, f0, owner, free, r, i, j, need)
        decreases n - t
      {
        ghost var m1, o1, f1 := mem, owner, free;
        StepInRange(m0, m1, r, v0, t, n, pa, attribute);
        RoundStep(v0, vend, t);
        PhysicalStep(pa, t, n, p);
        if oneDirectory {
          SameDirectory(v0, t);
        }
        ok := MapPage(r, vstart, p, attribute);
        ExtendsTransitive(m0, o0, m1, o1, mem, owner, r);
        CarryTransitive(m0, o0, m1, o1, mem, owner, r, attribute);
        if oneDirectory && 0 < t {
          TookNothingMore(o0, f0, o1, f1, owner, free, r, i, j, need);
        }
        if !ok {
          StillMapped(m0, m1, mem, r, q0, t, pa, attribute);
          return false;
        }
        RangeGrows(m0, m1, mem, r, v0, t, pa, attribute);
        if t + 1 < n {
          RoundStep(v0, vend, t + 1);
        }
        t := t + 1;
        vstart := (vstart + PAGE_SIZE) % U64;
        p := (p + PAGE_SIZE) % U64;
        if !GoesOn(vstart, vend) {
          break;
        }
      }
      ok := true;
    }

    // ---------------------------------------------------------------------- teardown

    /** kfree(page); pd[index] = 0 */
    method DropPage(r: nat, ghost i: nat, ghost j: nat, index: nat, pd: nat, page: nat)
      requires Valid() && IsRoot(r) && i < ENTRIES && j < ENTRIES && index < ENTRIES && PdAt(mem, r, i, j) == Some(pd)
      requires page in owner && owner[page].User? && owner[page].root == r
      modifies this
      ensures Valid() && IsRoot(r) && Local(old(mem), old(owner), mem, owner, r)
      ensures free == [page] + old(free) && owner == old(owner)[page := Free]
      ensures forall i', j', k' :: 0 <= i' < ENTRIES && 0 <= j' < ENTRIES && 0 <= k' < ENTRIES ==>
                Leaf(mem, r, i', j', k') == if i' == i && j' == j && k' == index then None else old(Leaf(mem, r, i', j', k'))
    {
      hide FreeListOk, TreeOk, MapsOk, FramesOk, Local, Extends;
      ghost var m0, o0 := mem, owner;
      TableInPlace(m0, o0, r, i, j, pd);
      FrameFacts(mem, owner, kernelEnd, pd);
      FrameFacts(mem, owner, kernelEnd, page);
      KFree(page);
      ghost var m1, o1 := mem, owner;
      RemoveUser(m0, o0, r, page, m1[page][0], m1, o1);
      Store(pd, index, 0);
      SetLeaf(m1, o1, r, i, j, index, pd, 0, mem);
      ExtendsIsLocal(m1, o1, mem, owner, r);
      LocalTransitive(m0, o0, m1, o1, mem, owner, r);
      LocalKeepsMaps(m0, o0, mem, owner, r);
    }

    /** One round of the loop of free_pages. */
    method FreePage(r: nat, vstart: nat)
      requires Valid() && IsRoot(r) && OwnsPage(mem, owner, r, PageOf(vstart))
      modifies this
      ensures Valid() && IsRoot(r) && Local(old(mem), old(owner), mem, owner, r)
      ensures forall q :: 0 <= q < PAGES ==> PageLeaf(mem, r, q) == if q == PageOf(vstart) then None else old(PageLeaf(mem, r, q))
      ensures var was := old(PageLeaf(mem, r, PageOf(vstart)));
              if was.None? then unchanged(this)
              else free == [P2V(PteAddr(was.value))] + old(free) && owner == old(owner)[P2V(PteAddr(was.value)) := Free]
      ensures Suffix(free, old(free))
    {
      hide TreeOk, MapsOk, FreeListOk;
      IndexesOfPage(vstart);
      ghost var m0, o0, q := mem, owner, PageOf(vstart);
      LocalReflexive(m0, o0, r);
      var pd := FindPdptEntry(r, vstart, false, 0);
      if pd != 0 {
        ghost var i, j := Index4(vstart), Index3(vstart);
        var index := Index2(vstart);
        TableInPlace(m0, o0, r, i, j, pd);
        var entry := Load(pd, index);
        if Present(entry) {
          assert PageLeaf(m0, r, q) == Some(entry);
          DropPage(r, i, j, index, pd, P2V(PteAddr(entry)));
          OneLeafOnePage(m0, mem, r, q, None);
        }
      }
    }

    /** One round of the loop of free_pages. */
    method FreeRound(r: nat, ghost v: nat, ghost t: nat, vstart: nat, ghost m0: Frames, ghost o0: Owners, ghost f0: seq<nat>)
      requires Valid() && IsRoot(r) && Local(m0, o0, mem, owner, r) && Suffix(free, f0)
      requires Aligned(v) && t < PAGES && vstart == v + t * PAGE_SIZE < U64 && OwnsPage(m0, o0, r, PageOf(vstart))
      requires RangeUnmapped(m0, mem, r, PageOf(v), t) && RangeFreed(m0, o0, owner, r, PageOf(v), t)
      modifies this
      ensures Valid() && IsRoot(r) && Local(m0, o0, mem, owner, r) && Suffix(free, f0)
      ensures RangeUnmapped(m0, mem, r, PageOf(v), t + 1) && RangeFreed(m0, o0, owner, r, PageOf(v), t + 1)
    {
      hide TreeOk, MapsOk, FreeListOk, PageLeaf, PageOffset, PageOf, OwnsPage, Local, RangeUnmapped, RangeFreed;
      hide P2V, PteAddr, Aligned;
      ghost var m1, o1, f1 := mem, owner, free;
      NextPageOffset(v, t);
      StillOwnsPage(m0, o0, m1, o1, r, v, t);
      FreePage(r, vstart);
      SuffixTransitive(free, f1, f0);
      LocalTransitive(m0, o0, m1, o1, mem, owner, r);
      UnmapsOneMore(m0, o0, m1, o1, mem, owner, r, v, t);
    }

    method FreePages(r: nat, v: nat, e: nat)
      requires Valid() && IsRoot(r)
      // the source's ASSERTs, and that its loop ends by itself within the 48-bit space
      requires LoopEnds(v, e) && Rounds(v, e) <= PAGES
      requires forall q :: 0 <= q < PAGES && PageOffset(q, PageOf(v)) < Rounds(v, e) ==> OwnsPage(mem, owner, r, q)
      modifies this
      ensures Valid() && IsRoot(r) && Local(old(mem), old(owner), mem, owner, r)
      ensures RangeUnmapped(old(mem), mem, r, PageOf(v), Rounds(v, e))
      ensures RangeFreed(old(mem), old(owner), owner, r, PageOf(v), Rounds(v, e))
      ensures Suffix(free, old(free))
    {
      hide TreeOk, MapsOk, FreeListOk, PageLeaf, PageOffset, PageOf, OwnsPage, Local, RangeUnmapped, RangeFreed, GoesOn;
      hide P2V, PteAddr, Aligned, PageAt, Rounds, LoopEnds;
      var vstart, vend := v, e;
      ghost var n := Rounds(v, e);
      AtLeastOne(v, e);
      ghost var m0, o0, f0 := mem, owner, free;
      ghost var t := 0;
      LocalReflexive(mem, owner, r);
      assert Suffix(free, free);
      NothingUnmapped(mem, owner, r, PageOf(v));
      while true
        invariant Valid() && IsRoot(r) && Local(m0, o0, mem, owner, r) && Suffix(free, f0)
        invariant t < n && vstart == v + t * PAGE_SIZE
        invariant RangeUnmapped(m0, mem, r, PageOf(v), t) && RangeFreed(m0, o0, owner, r, PageOf(v), t)
        decreases n - t
      {
        NextPageOffset(v, t);
        RoundStep(v, e, t);
        FreeRound(r, v, t, vstart, m0, o0, f0);
        if t + 1 < n {
          RoundStep(v, e, t + 1);
        }
        t := t + 1;
        vstart := (vstart + PAGE_SIZE) % U64;
        if !GoesOn(vstart, vend) {
          break;
        }
      }
    }

    /** kfree(pd); pdptr[j] = 0 */
    method DropPd(r: nat, ghost i: nat, j: nat, pdptr: nat, pd: nat)
      requires Valid() && IsRoot(r) && i < ENTRIES && j < ENTRIES
      requires Next(mem, r, i) == Some(pdptr) && Next(mem, pdptr, j) == Some(pd)
      modifies this
      ensures Valid() && IsRoot(r) && Local(old(mem), old(owner), mem, owner, r)
      ensures free == [pd] + old(free) && pd in old(owner) && owner == old(owner)[pd := Free]
      ensures forall i' :: 0 <= i' < ENTRIES ==> Next(mem, r, i') == old(Next(mem, r, i'))
    {
      hide FreeListOk, TreeOk, MapsOk, Local;
      ghost var m0, o0 := mem, owner;
      PdptInPlace(m0, o0, r, i, pdptr);
      TableInPlace(m0, o0, r, i, j, pd);
      FrameFacts(mem, owner, kernelEnd, pdptr);
      FrameFacts(mem, owner, kernelEnd, pd);
      KFree(pd);
      Store(pdptr, j, 0);
      RemovePd(m0, o0, r, i, j, pdptr, pd, mem[pd][0], mem, owner);
      LocalKeepsMaps(m0, o0, mem, owner, r);
    }

    /** The inner loop of free_pdt, for the table behind entry i of r. */
    method FreePdsOf(r: nat, i: nat, pdptr: nat, ghost o0: Owners)
      requires Valid() && IsRoot(r) && i < ENTRIES && Next(mem, r, i) == Some(pdptr) && PdsFreed(o0, owner, r, i, 0)
      modifies this
      ensures Valid() && IsRoot(r) && Local(old(mem), old(owner), mem, owner, r) && Suffix(free, old(free))
      ensures forall i' :: 0 <= i' < ENTRIES ==> Next(mem, r, i') == old(Next(mem, r, i'))
      ensures PdsFreed(o0, owner, r, i + 1, 0)
    {
      hide TreeOk, MapsOk, FreeListOk, Local, Suffix, PdsFreed, PdeAddr;
      ghost var m0, o1, f0 := mem, owner, free;
      LocalReflexive(mem, owner, r);
      SuffixReflexive(free);
      for j := 0 to ENTRIES
        invariant Valid() && IsRoot(r) && Local(m0, o1, mem, owner, r) && Suffix(free, f0)
        invariant forall i' :: 0 <= i' < ENTRIES ==> Next(mem, r, i') == Next(m0, r, i')
        invariant PdsFreed(o0, owner, r, i, j)
      {
        ghost var m2, o2, f2 := mem, owner, free;
        PdptInPlace(mem, owner, r, i, pdptr);
        var entry := Load(pdptr, j);
        if Present(entry) {
          DropPd(r, i, j, pdptr, P2V(PdeAddr(entry)));
          LocalTransitive(m0, o1, m2, o2, mem, owner, r);
          SuffixPush(f2, free[0], f0);
        }
        PdsFreedNext(m2, o0, o2, owner, r, i, j, pdptr);
      }
      PdptInPlace(mem, owner, r, i, pdptr);
      PdsFreedRow(mem, o0, owner, r, i, ENTRIES);
    }

    method FreePdt(r: nat)
      requires Valid() && IsRoot(r)
      modifies this
      ensures Valid() && IsRoot(r) && Local(old(mem), old(owner), mem, owner, r) && Suffix(free, old(free))
      ensures PdsFreed(old(owner), owner, r, ENTRIES, 0)
    {
      hide TreeOk, FreeListOk, Local, Suffix, PdsFreed, PdeAddr, P2V, MapsOk, FramesOk;
      ghost var m0, o0, f0 := mem, owner, free;
      FrameFacts(mem, owner, kernelEnd, r);
      LocalReflexive(mem, owner, r);
      SuffixReflexive(free);
      NothingFreed(owner, r);
      for i := 0 to ENTRIES
        invariant Valid() && IsRoot(r) && Local(m0, o0, mem, owner, r) && Suffix(free, f0)
        invariant PdsFreed(o0, owner, r, i, 0)
      {
        ghost var m1, o1, f1 := mem, owner, free;
        RootInOrder(m1, o1, r);
        FrameFacts(m1, o1, kernelEnd, r);
        var entry := Load(r, i);
        if Present(entry) {
          FreePdsOf(r, i, P2V(PdeAddr(entry)), o0);
          LocalTransitive(m0, o0, m1, o1, mem, owner, r);
          SuffixTransitive(free, f1, f0);
        } else {
          PdsFreedRow(mem, o0, owner, r, i, 0);
        }
      }
    }

    /** kfree(pdptr); map_entry[i] = 0 */
    method DropPdpt(r: nat, i: nat, pdptr: nat)
      requires Valid() && IsRoot(r) && i < ENTRIES && Next(mem, r, i) == Some(pdptr)
      requires NoPdsOf(owner, r)
      modifies this
      ensures Valid() && IsRoot(r) && Local(old(mem), old(owner), mem, owner, r)
      ensures free == [pdptr] + old(free) && pdptr in old(owner) && owner == old(owner)[pdptr := Free]
    {
      hide FreeListOk, TreeOk, MapsOk, Local;
      ghost var m0, o0 := mem, owner;
      PdptInPlace(m0, o0, r, i, pdptr);
      FrameFacts(mem, owner, kernelEnd, pdptr);
      KFree(pdptr);
      Store(r, i, 0);
      RemovePdpt(m0, o0, r, i, pdptr, mem[pdptr][0], mem, owner);
      LocalKeepsMaps(m0, o0, mem, owner, r);
    }

    method FreePdpt(r: nat)
      requires Valid() && IsRoot(r)
      requires NoPdsOf(owner, r)
      modifies this
      ensures Valid() && IsRoot(r) && Local(old(mem), old(owner), mem, owner, r) && Suffix(free, old(free))
      ensures PdptsFreed(old(owner), owner, r, ENTRIES)
    {
      hide TreeOk, FreeListOk, Local, Suffix, PdptsFreed, PdeAddr, P2V, MapsOk, FramesOk, NoPdsOf;
      ghost var m0, o0, f0 := mem, owner, free;
      FrameFacts(mem, owner, kernelEnd, r);
      LocalReflexive(mem, owner, r);
      SuffixReflexive(free);
      NothingFreed(owner, r);
      for i := 0 to ENTRIES
        invariant Valid() && IsRoot(r) && Local(m0, o0, mem, owner, r) && Suffix(free, f0)
        invariant NoPdsOf(owner, r)
        invariant PdptsFreed(o0, owner, r, i)
      {
        ghost var m1, o1, f1 := mem, owner, free;
        RootInOrder(m1, o1, r);
        FrameFacts(m1, o1, kernelEnd, r);
        var entry := Load(r, i);
        if Present(entry) {
          DropPdpt(r, i, P2V(PdeAddr(entry)));
          NoPdsKept(o1, r, P2V(PdeAddr(entry)));
          LocalTransitive(m0, o0, m1, o1, mem, owner, r);
          SuffixPush(f1, free[0], f0);
        }
        PdptsFreedNext(m1, o0, o1, owner, r, i);
      }
    }

    method FreePml4t(r: nat)
      requires Valid() && IsRoot(r)
      requires forall f :: f in owner ==> !IsTableOf(owner[f], r)
      modifies this
      ensures Valid() && Local(old(mem), old(owner), mem, owner, r)
      ensures free == [r] + old(free) && owner == old(owner)[r := Free]
    {
      hide FreeListOk, TreeOk, MapsOk;
      ghost var m0, o0 := mem, owner;
      KFree(r);
      LocalKeepsMaps(m0, o0, mem, owner, r);
    }

    /** The allocator and all address spaces are in order. */
    ghost predicate Clean()
      reads this
    {
      Valid() && UsersOk(mem, owner)
    }

    /** The first three stages of free_vm. */
    method FreeBelow(r: nat)
      requires Clean() && IsRoot(r)
      modifies this
      ensures Valid() && IsRoot(r) && Local(old(mem), old(owner), mem, owner, r)
      ensures MapFreed(old(owner), owner[r := Free], r) && Suffix(free, old(free))
      ensures forall f :: f in owner ==> !IsTableOf(owner[f], r) && !(owner[f].User? && owner[f].root == r)
    {
      hide FreeListOk, FramesOk, Local, Suffix, PdsFreed, PdptsFreed, RangeFreed, OwnsPage, UserOk, UsersOk;
      hide PageOffset, TreeOk, MapsOk, MapFreed;
      ghost var m0, o0, f0 := mem, owner, free;
      UserRange(m0, o0, r);
      FreePages(r, USER_BASE, USER_BASE + PAGE_SIZE);
      ghost var m1, o1, f1 := mem, owner, free;
      TablesInRange(m1, o1, r);
      FreePdt(r);
      ghost var m2, o2, f2 := mem, owner, free;
      TablesInRange(m2, o2, r);
      NoPdsLeft(o1, o2, r);
      FreePdpt(r);
      StagesFreeMap(m0, o0, o1, o2, owner, r);
      LocalTransitive(m0, o0, m1, o1, m2, o2, r);
      LocalTransitive(m0, o0, m2, o2, mem, owner, r);
      SuffixTransitive(f2, f1, f0);
      SuffixTransitive(free, f2, f0);
    }

    /** Gives back every frame of an address space, each once, and touches no frame of another. */
    method FreeVm(r: nat)
      requires Clean() && IsRoot(r)
      modifies this
      ensures Clean() && Local(old(mem), old(owner), mem, owner, r)
      ensures MapFreed(old(owner), owner, r) && Suffix(free, old(free))
    {
      hide FreeListOk, FramesOk, Local, Suffix, UsersOk, TreeOk, MapsOk, MapFreed;
      ghost var m0, o0, f0 := mem, owner, free;
      FreeBelow(r);
      ghost var m1, o1, f1 := mem, owner, free;
      FreePml4t(r);
      LocalTransitive(m0, o0, m1, o1, mem, owner, r);
      SuffixPush(f1, r, f0);
      LocalKeepsUsers(m0, o0, mem, owner, r);
    }

    // --------------------------------------------------------- building address spaces

    /** kalloc and memset of a PML4 table. */
    method NewPml4t() returns (r: nat)
      requires Clean()
      modifies this
      ensures Clean() && (r == 0 <==> old(free) == []) && (r == 0 ==> unchanged(this))
      ensures r != 0 ==>
                && r == old(free)[0] && free == old(free)[1..] && r in old(owner) && old(owner[r]).Free?
                && owner == old(owner)[r := Root] && Local(old(mem), old(owner), mem, owner, r)
                && (forall q :: 0 <= q < PAGES ==> PageLeaf(mem, r, q) == None)
                && (forall i, j :: 0 <= i < ENTRIES && 0 <= j < ENTRIES ==> Missing(mem, r, i, j) == 2)
                && (forall f :: f in owner && Belongs(owner[f], f, r) ==> f == r)
    {
      hide FreeListOk, MapsOk, UsersOk, Zeros, Missing, PageLeaf, Local;
      ghost var m0, o0 := mem, owner;
      r := KAlloc();
      if r != 0 {
        Clear(r);
        ReownKeepsList(mem, owner, freeNext, free, r, Root);
        owner := owner[r := Root];
        NewRoot(m0, o0, r, mem, owner);
      }
    }

    method SetupKvm() returns (r: nat)
      requires Clean()
      modifies this
      ensures Clean() && KeptInUse(old(mem), old(owner), mem, owner)
      ensures r == 0 <==> |old(free)| < 3
      ensures r == 0 ==> owner == old(owner)
      ensures r != 0 ==>
                && r == old(free)[0] && free == old(free)[3..] && IsRoot(r) && MapsExactly(mem, r, None)
                && PageLeaf(mem, r, USER_PAGE) == None && Missing(mem, r, 0, 0) == 2
                && BecameTables(old(owner), owner, r, 256, 0) && Permits(mem, r)
    {
      hide FreeListOk, MapsOk, UsersOk, Missing, PageLeaf, LeafWord, PageOf, PageOffset, RangePages;
      hide RangeMapped, TreeOk, UserOk;
      hide Extends, Local, KeptInUse, TookTables, BecameTables, Belongs, MapFreed, MapsExactly, P2V, V2P, PaUp;
      hide PaDown, Aligned, Index4, Index3, Carry, AllCarry, Permits, Upper, WordIn;
      ghost var m0, o0 := mem, owner;
      KeptReflexive(mem, owner);
      r := NewPml4t();
      if r != 0 {
        NothingBelongs(m0, o0, r);
        ghost var m1, o1, f1 := mem, owner, free;
        KernelRange();
        var ok := MapPages(r, KERNEL_BASE, P2V(ONE_GB), V2P(KERNEL_BASE), ATTR_KERNEL);
        ghost var n: nat :| n <= ENTRIES && RangeMapped(m1, mem, r, PageOf(KERNEL_BASE), n, 0, ATTR_KERNEL) && (ok ==> n == ENTRIES);
        ghost var m2, o2 := mem, owner;
        KernelOnly(m1, o1, m2, o2, r, n, ATTR_KERNEL);
        ExtendsIsLocal(m1, o1, m2, o2, r);
        LocalKeepsUsers(m1, o1, m2, o2, r);
        LocalTransitive(m0, o0, m1, o1, m2, o2, r);
        LocalKeepsInUse(m0, o0, m2, o2, r);
        if ok {
          TookIsBecame(o0, o1, f1, o2, free, r, 256, 0);
          KernelMapsExactly(m1, mem, r);
          RootInOrder(mem, owner, r);
          NoNext(m1, r);
          NothingThere(m1, o1, r);
          FromNothing(m1, o1, mem, owner, r, ATTR_KERNEL);
          KernelPermits(mem, owner, r);
          MissingElsewhere(mem, owner, o0, r, 256, 0, 0, 0);
        } else {
          FreeVm(r);
          Restored(m0, o0, m2, o2, owner, r);
          LocalTransitive(m0, o0, m2, o2, mem, owner, r);
          LocalKeepsInUse(m0, o0, mem, owner, r);
          r := 0;
        }
      }
    }

    /** When the user page cannot be mapped: kfree of the page, free_vm of the address space. */
    method GiveBackUserPage(r: nat, page: nat, ghost m0: Frames, ghost o0: Owners, ghost m1: Frames)
      requires Valid() && IsRoot(r) && page in owner && owner[page] == User(r, USER_PAGE)
      requires forall f :: f in owner && owner[f].User? && owner[f].root == r ==> f == page
      requires MapsOk(m0, o0) && UsersOk(m0, o0) && r in o0 && o0[r].Root? && Local(m0, o0, mem, owner, r)
      requires RangeMapped(m1, mem, r, USER_PAGE, 0, V2P(page), ATTR_USER) && PageLeaf(m1, r, USER_PAGE) == None
      modifies this
      ensures Clean() && Local(m0, o0, mem, owner, r) && MapFreed(o0, owner, r)
    {
      hide FreeListOk, MapsOk, UsersOk, PageLeaf, RangeMapped, TreeOk, UserOk, Local, MapFreed, V2P, FramesOk;
      ghost var m2, o2 := mem, owner;
      FrameFacts(m2, o2, kernelEnd, page);
      KFree(page);
      ghost var m3, o3 := mem, owner;
      UserDropped(m1, m2, o2, r, page, V2P(page), ATTR_USER, m3[page][0], m3, o3);
      LocalTransitive(m0, o0, m2, o2, m3, o3, r);
      LocalKeepsUsers(m0, o0, m3, o3, r);
      FreeVm(r);
      LocalTransitive(m0, o0, m3, o3, mem, owner, r);
      SameFreed(m0, o0, m3, o3, owner, r);
    }

    /** The part that setup_uvm and copy_uvm share: take a page, zero it and map it at
        USER_BASE.  If there is no page, nothing happens; if the page cannot be mapped, it and
        the whole address space are given back. */
    method NewUserPage(r: nat) returns (page: nat, ok: bool)
      requires Clean() && IsRoot(r) && PageLeaf(mem, r, USER_PAGE) == None
      modifies this
      ensures Clean() && Local(old(mem), old(owner), mem, owner, r)
      ensures ok <==> 1 + old(Missing(mem, r, 0, 0)) <= |old(free)|
      ensures !ok && old(free) == [] ==> page == 0 && unchanged(this)
      ensures !ok && old(free) != [] ==> page != 0 && MapFreed(old(owner), owner, r)
      ensures ok ==>
                && IsRoot(r) && page == old(free)[0] && free == old(free)[1 + old(Missing(mem, r, 0, 0))..]
                && page in owner && owner[page] == User(r, USER_PAGE) && mem[page] == Zeros()
                && RangeMapped(old(mem), mem, r, USER_PAGE, 1, V2P(page), ATTR_USER)
                && PageLeaf(mem, r, USER_PAGE) == Some(LeafWord(V2P(page), ATTR_USER))
                && BecameUser(old(owner), owner, r, page) && Carry(old(mem), old(owner), mem, owner, r, ATTR_USER)
    {
      hide FreeListOk, MapsOk, UsersOk, Missing, PageLeaf, LeafWord, PageOf, PageOffset, RangePages;
      hide RangeMapped, TreeOk, UserOk;
      hide Extends, Local, TookTables, Belongs, MapFreed, P2V, V2P, PaUp, PaDown, Aligned, Index4, Index3;
      hide Zeros, BecameUser, Carry;
      ghost var m0, o0, f0 := mem, owner, free;
      UserNumbers();
      NoUserFrames(m0, o0, r);
      page := KAlloc();
      if page == 0 {
        LocalReflexive(mem, owner, r);
        return 0, false;
      }
      Clear(page);
      ReownKeepsList(mem, owner, freeNext, free, page, User(r, USER_PAGE));
      owner := owner[page := User(r, USER_PAGE)];
      TakeUser(m0, o0, r, page, Zeros(), mem, owner);
      UserFrame(page);
      ghost var m1, o1, f1 := mem, owner, free;
      UserTaken(m0, o0, r, page, m1, o1);
      ok := MapPages(r, USER_BASE, USER_BASE + PAGE_SIZE, V2P(page), ATTR_USER);
      ExtendsIsLocal(m1, o1, mem, owner, r);
      LocalTransitive(m0, o0, m1, o1, mem, owner, r);
      ghost var m2, o2 := mem, owner;
      UserKept(m1, o1, m2, o2, r, page);
      if ok {
        UserIsMapped(m1, m2, o2, r, page, ATTR_USER);
        TookIsBecameUser(o0, o1, f1, o2, free, r, page, old(Missing(mem, r, 0, 0)));
        SameRange(m0, o0, m1, o1, m2, r, 1, V2P(page), ATTR_USER);
        CarryTransitive(m0, o0, m1, o1, m2, o2, r, ATTR_USER);
        LocalKeepsUsers(m0, o0, m2, o2, r);
      } else {
        GiveBackUserPage(r, page, m0, o0, m1);
      }
    }

    /** data is what lies at start; the rest of the page stays zero. */
    method SetupUvm(r: nat, data: seq<byte>) returns (status: bool)
      requires Clean() && IsRoot(r) && PageLeaf(mem, r, USER_PAGE) == None && |data| <= PAGE_SIZE
      modifies this
      ensures Clean() && Local(old(mem), old(owner), mem, owner, r)
      ensures status <==> 1 + old(Missing(mem, r, 0, 0)) <= |old(free)|
      ensures !status ==> if old(free) == [] then unchanged(this) else MapFreed(old(owner), owner, r)
      ensures status ==>
                var page := old(free)[0];
                && IsRoot(r) && free == old(free)[1 + old(Missing(mem, r, 0, 0))..]
                && page in owner && owner[page] == User(r, USER_PAGE) && HoldsBytes(mem[page], data)
                && RangeMapped(old(mem), mem, r, USER_PAGE, 1, V2P(page), ATTR_USER)
                && BecameUser(old(owner), owner, r, page) && Carry(old(mem), old(owner), mem, owner, r, ATTR_USER)
      ensures status && old(Permits(mem, r) && MapsExactly(mem, r, None) && Next(mem, r, 0).None?) ==> Permits(mem, r)
    {
      hide FreeListOk, MapsOk, UsersOk, Missing, PageLeaf, LeafWord, PageOffset, RangeMapped, TreeOk, UserOk;
      hide Local, MapFreed, P2V, V2P, BecameUser, Zeros, HoldsBytes, Packed, Carry, Permits, MapsExactly;
      ghost var m0, o0 := mem, owner;
      PackedHolds(data);
      var page;
      page, status := NewUserPage(r);
      if status {
        CopyTo(r, page, Packed(data), m0, o0);
        UserPagePermits(m0, o0, mem, owner, r, page);
      }
    }

    /** memcpy(page, data, |data|), into the zeroed user page of r */
    method CopyTo(r: nat, page: nat, data: seq<nat>, ghost m0: Frames, ghost o0: Owners)
      requires Clean() && IsRoot(r) && |data| <= WORDS
      requires page in owner && owner[page] == User(r, USER_PAGE) && mem[page] == Zeros()
      requires Local(m0, o0, mem, owner, r) && RangeMapped(m0, mem, r, USER_PAGE, 1, V2P(page), ATTR_USER)
      requires Carry(m0, o0, mem, owner, r, ATTR_USER)
      modifies `mem
      ensures Clean() && Local(m0, o0, mem, owner, r) && RangeMapped(m0, mem, r, USER_PAGE, 1, V2P(page), ATTR_USER)
      ensures Carry(m0, o0, mem, owner, r, ATTR_USER)
      ensures mem == old(mem)[page := data + Zeros()[|data|..]]
    {
      hide FreeListOk, MapsOk, UsersOk, PageLeaf, LeafWord, PageOffset, Zeros, Local, V2P, Carry;
      ghost var m1 := mem;
      mem := mem[page := data + mem[page][|data|..]];
      OverwriteUser(m1, owner, r, page, mem[page], mem);
      UserTaken(m1, owner, r, page, mem, owner);
      CarryTransitive(m0, o0, m1, owner, mem, owner, r, ATTR_USER);
      LocalTransitive(m0, o0, m1, owner, mem, owner, r);
      NotFreePage(m1, owner, freeNext, free, page, mem);
    }

    /** The frame that the user page of s is mapped to. */
    ghost function UserFrameOf(s: nat): nat
      requires PageLeaf(mem, s, USER_PAGE).Some?
      reads this
    {
      P2V(PteAddr(PageLeaf(mem, s, USER_PAGE).value))
    }

    method CopyUvm(dst: nat, src: nat, size: nat) returns (status: bool)
      requires Clean() && IsRoot(dst) && IsRoot(src) && dst != src && size <= WORDS
      requires PageLeaf(mem, dst, USER_PAGE) == None
      requires PdAt(mem, src, 0, 0).Some? ==> PageLeaf(mem, src, USER_PAGE).Some?  // the source's ASSERT
      modifies this
      ensures Clean() && Local(old(mem), old(owner), mem, owner, dst)
      ensures status <==> 1 + old(Missing(mem, dst, 0, 0)) <= |old(free)| && old(PdAt(mem, src, 0, 0)).Some?
      ensures !status ==> if old(free) == [] then unchanged(this) else MapFreed(old(owner), owner, dst)
      ensures status ==>
                var page := old(free)[0];
                && IsRoot(dst) && free == old(free)[1 + old(Missing(mem, dst, 0, 0))..]
                && old(UserFrameOf(src)) in old(mem) && page in mem && page in owner && owner[page] == User(dst, USER_PAGE)
                && mem[page] == old(mem)[old(UserFrameOf(src))][..size] + Zeros()[size..]
                && RangeMapped(old(mem), mem, dst, USER_PAGE, 1, V2P(page), ATTR_USER)
                && BecameUser(old(owner), owner, dst, page) && Carry(old(mem), old(owner), mem, owner, dst, ATTR_USER)
      ensures status && old(Permits(mem, dst) && MapsExactly(mem, dst, None) && Next(mem, dst, 0).None?) ==> Permits(mem, dst)
    {
      hide FreeListOk, MapsOk, UsersOk, Missing, LeafWord, PageOffset, RangeMapped, TreeOk, UserOk;
      hide Local, MapFreed, P2V, V2P, BecameUser, Zeros, PdAt, PteAddr, Carry, Permits, MapsExactly;
      ghost var m0, o0 := mem, owner;
      var page;
      page, status := NewUserPage(dst);
      if status {
        SourceKept(m0, o0, mem, owner, dst, src);
        UserNumbers();
        var pd := FindPdptEntry(src, USER_BASE, false, 0);
        if pd == 0 {
          ghost var m1, o1 := mem, owner;
          FreeVm(dst);
          SameFreed(m0, o0, m1, o1, owner, dst);
          LocalTransitive(m0, o0, m1, o1, mem, owner, dst);
          return false;
        }
        var index := Index2(USER_BASE);
        RootInOrder(mem, owner, src);
        TableInPlace(mem, owner, src, 0, 0, pd);
        var entry := Load(pd, index);
        assert PageLeaf(mem, src, USER_PAGE) == Some(entry);
        var start := P2V(PteAddr(entry));
        var data := mem[start][..size];
        CopyTo(dst, page, data, m0, o0);
        UserPagePermits(m0, o0, mem, owner, dst, page);
      }
    }

    // --------------------------------------------------------- frames outside the maps

    /** kalloc and memset of a frame for the kernel itself. */
    method NewFrame(tag: nat) returns (f: nat)
      requires Clean()
      modifies this
      ensures Clean() && (f == 0 <==> old(free) == []) && (f == 0 ==> unchanged(this))
      ensures f != 0 ==>
                && f == old(free)[0] && free == old(free)[1..] && f in old(owner) && old(owner[f]).Free?
                && owner == old(owner)[f := Held(tag)] && mem == old(mem)[f := Zeros()]
                && forall r :: r in owner && owner[r].Root? ==> SameMap(old(mem), old(owner), mem, owner, r)
    {
      hide FreeListOk, MapsOk, UsersOk, SameMap, Zeros;
      ghost var m0, o0 := mem, owner;
      f := KAlloc();
      if f != 0 {
        Clear(f);
        ReownKeepsList(mem, owner, freeNext, free, f, Held(tag));
        owner := owner[f := Held(tag)];
        ApartKeepsMaps(m0, o0, mem, owner);
      }
    }

    /** kfree of a frame that belongs to no address space. */
    method FreeFrame(f: nat)
      requires Clean() && f in owner && (owner[f].Held? || owner[f].Boot?)
      modifies this
      ensures Clean() && free == [f] + old(free) && owner == old(owner)[f := Free]
      ensures forall g :: g in mem && g != f ==> g in old(mem) && mem[g] == old(mem[g])
      ensures forall r :: r in owner && owner[r].Root? ==> SameMap(old(mem), old(owner), mem, owner, r)
    {
      hide FreeListOk, MapsOk, UsersOk, SameMap;
      ghost var m0, o0 := mem, owner;
      KFree(f);
      ApartKeepsMaps(m0, o0, mem, owner);
    }

    method FreeRegion(v: nat, e: nat)
      requires Clean() && v <= U64 - 2 * PAGE_SIZE && e < U64 - PAGE_SIZE  // start does not wrap
      requires forall f :: 0 <= f < e && InRegion(f, v, e) ==> f in owner && owner[f].Boot?
      modifies this
      ensures Clean() && Suffix(free, old(free)) && owner.Keys == old(owner).Keys
      ensures forall f :: f in owner ==> owner[f] == if InRegion(f, v, e) then Free else old(owner)[f]
    {
      hide FreeListOk, MapsOk, UsersOk, FramesOk, Suffix, InRegion, RegionFreed, SameMap;
      ghost var o0, f0 := owner, free;
      SuffixReflexive(free);
      var start := PaUp(v);
      RegionStart(o0, v, e);
      StartBelow(v);
      while start + PAGE_SIZE <= e
        invariant Clean() && Suffix(free, f0) && RegionFreed(o0, owner, v, e, start) && Aligned(start) && v <= start
        invariant start + PAGE_SIZE < U64
        decreases e + PAGE_SIZE - start
      {
        ghost var f1, o1 := free, owner;
        if start + PAGE_SIZE <= KERNEL_LIMIT {
          RegionNext(o0, o1, v, e, start);
          FreeFrame(start);
          SuffixPush(f1, start, f0);
        } else {
          RegionPast(o0, o1, v, e, start);
        }
        start := start + PAGE_SIZE;
        AlignedNext(start);
      }
      RegionDone(o0, owner, v, e, start);
    }
  }

  /** The frames of [v, e) that free_region hands to the allocator. */
  ghost predicate InRegion(f: nat, v: nat, e: nat) {
    Aligned(f) && v <= f && f + PAGE_SIZE <= e && f + PAGE_SIZE <= KERNEL_LIMIT
  }

  /** Those below start have been freed, and no other frame has changed hands. */
  ghost predicate RegionFreed(o0: Owners, o1: Owners, v: nat, e: nat, start: nat) {
    && o1.Keys == o0.Keys
    && forall f :: f in o1 ==> o1[f] == if InRegion(f, v, e) && f < start then Free else o0[f]
  }

  lemma RegionStart(o: Owners, v: nat, e: nat)
    ensures Aligned(PaUp(v)) && RegionFreed(o, o, v, e, PaUp(v))
  {
  }

  lemma StartBelow(v: nat)
    requires v <= U64 - 2 * PAGE_SIZE
    ensures v <= PaUp(v) && PaUp(v) + PAGE_SIZE < U64
  {
  }

  lemma AlignedNext(a: nat)
    requires a >= PAGE_SIZE && Aligned(a - PAGE_SIZE)
    ensures Aligned(a)
  {
  }

  lemma RegionNext(o0: Owners, o1: Owners, v: nat, e: nat, start: nat)
    requires RegionFreed(o0, o1, v, e, start) && Aligned(start) && v <= start
    requires start + PAGE_SIZE <= e && start + PAGE_SIZE <= KERNEL_LIMIT
    requires forall f :: 0 <= f < e && InRegion(f, v, e) ==> f in o0 && o0[f].Boot?
    ensures start in o1 && o1[start].Boot? && RegionFreed(o0, o1[start := Free], v, e, start + PAGE_SIZE)
  {
    assert InRegion(start, v, e);
    AlignedNext(start + PAGE_SIZE);
    AlignedGap(start + PAGE_SIZE);
  }

  lemma RegionPast(o0: Owners, o1: Owners, v: nat, e: nat, start: nat)
    requires RegionFreed(o0, o1, v, e, start) && start + PAGE_SIZE > KERNEL_LIMIT
    ensures RegionFreed(o0, o1, v, e, start + PAGE_SIZE)
  {
  }

  lemma RegionDone(o0: Owners, o1: Owners, v: nat, e: nat, start: nat)
    requires RegionFreed(o0, o1, v, e, start) && start + PAGE_SIZE > e
    ensures o1.Keys == o0.Keys && forall f :: f in o1 ==> o1[f] == if InRegion(f, v, e) then Free else o0[f]
  {
  }
}
