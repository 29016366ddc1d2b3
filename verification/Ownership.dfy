/** Who owns each 2 MB frame, and what the page tables look like when ownership is right.
    Frames are named by their virtual address.  An owner determines where a table hangs, so
    no table can be reached by two paths and no frame can have two owners. */
module Ownership {
  import opened Common
  import opened Paging

  datatype Owner =
    | Boot                              // not yet given to the allocator
    | Free
    | Held(tag: nat)                    // taken by the kernel: a stack, a file table, a page in the making
    | Root                              // the PML4 table of an address space
    | Pdpt(root: nat, i: nat)           // the table behind entry i of root
    | Pd(root: nat, i: nat, j: nat)     // the table behind entries i and j
    | User(root: nat, q: nat)           // the frame mapped at page q of root

  const USER_PAGE := 2    // PageOf(0x400000)
  const ATTR_KERNEL := PTE_P + PTE_W
  const ATTR_USER := PTE_P + PTE_W + PTE_U

  type Owners = map<nat, Owner>

  predicate IsTableOf(o: Owner, r: nat) {
    (o.Pdpt? || o.Pd?) && o.root == r
  }

  /** Frame f is part of the address space whose PML4 table is r. */
  predicate Belongs(o: Owner, f: nat, r: nat) {
    (o.Root? && f == r) || IsTableOf(o, r) || (o.User? && o.root == r)
  }

  function Zeros(): (r: seq<nat>)
    ensures |r| == WORDS && forall i :: 0 <= i < WORDS ==> r[i] == 0
  {
    seq(WORDS, _ => 0)
  }

  /** *(uint64_t*)(f + 8 * i) = w */
  function Put(m: Frames, f: nat, i: nat, w: nat): Frames
    requires f in m && i < |m[f]|
  {
    var words: seq<nat> := m[f][i := w];
    m[f := words]
  }

  /** The tables below r and their owners agree, in both directions. */
  ghost predicate TreeOk(m: Frames, o: Owners, r: nat) {
    && (forall i :: 0 <= i < ENTRIES && Next(m, r, i).Some? ==>
          Next(m, r, i).value in o && o[Next(m, r, i).value] == Pdpt(r, i))
    && (forall p :: p in o && o[p].Pdpt? && o[p].root == r ==> o[p].i < ENTRIES && Next(m, r, o[p].i) == Some(p))
    && (forall i, j :: 0 <= i < ENTRIES && 0 <= j < ENTRIES && PdAt(m, r, i, j).Some? ==>
          PdAt(m, r, i, j).value in o && o[PdAt(m, r, i, j).value] == Pd(r, i, j))
    && (forall d :: d in o && o[d].Pd? && o[d].root == r ==>
          o[d].i < ENTRIES && o[d].j < ENTRIES && PdAt(m, r, o[d].i, o[d].j) == Some(d))
  }

  ghost predicate FramesOk(m: Frames, o: Owners, kernelEnd: nat) {
    && o.Keys == m.Keys
    && forall f :: f in m ==> FrameAddress(f) && kernelEnd <= f && |m[f]| == WORDS
  }

  /** Every table hangs below a live root, and every live root is in order. */
  ghost predicate MapsOk(m: Frames, o: Owners) {
    && (forall f :: f in o && (o[f].Pdpt? || o[f].Pd?) ==> o[f].root in o && o[o[f].root].Root?)
    && (forall r :: r in o && o[r].Root? ==> TreeOk(m, o, r))
  }

  /** From (m0, o0) to (m1, o1) only the tables below r have changed, and only frames that
      were free have become such tables. */
  ghost predicate Extends(m0: Frames, o0: Owners, m1: Frames, o1: Owners, r: nat) {
    && o0.Keys == o1.Keys == m0.Keys == m1.Keys
    && (forall f :: f in o0 ==> o1[f] == o0[f] || (o0[f].Free? && IsTableOf(o1[f], r)))
    && (forall f :: f in o0 && !o0[f].Free? && f != r && !IsTableOf(o0[f], r) ==> m1[f] == m0[f])
  }

  ghost predicate SameLeaves(m0: Frames, m1: Frames, r: nat) {
    forall i, j, k :: 0 <= i < ENTRIES && 0 <= j < ENTRIES && 0 <= k < ENTRIES ==>
      Leaf(m1, r, i, j, k) == Leaf(m0, r, i, j, k)
  }

  lemma ExtendsReflexive(m: Frames, o: Owners, r: nat)
    requires o.Keys == m.Keys
    ensures Extends(m, o, m, o, r)
  {
  }

  lemma ExtendsTransitive(m0: Frames, o0: Owners, m1: Frames, o1: Owners, m2: Frames, o2: Owners, r: nat)
    requires Extends(m0, o0, m1, o1, r) && Extends(m1, o1, m2, o2, r)
    ensures Extends(m0, o0, m2, o2, r)
  {
  }

  lemma SameLeavesTransitive(m0: Frames, m1: Frames, m2: Frames, r: nat)
    requires SameLeaves(m0, m1, r) && SameLeaves(m1, m2, r)
    ensures SameLeaves(m0, m2, r)
  {
  }

  /** From (m0, o0) to (m1, o1) only free frames and frames of the map r have changed, and
      they are free or frames of r again. */
  ghost predicate Local(m0: Frames, o0: Owners, m1: Frames, o1: Owners, r: nat) {
    && o0.Keys == o1.Keys == m0.Keys == m1.Keys
    && (forall f :: f in o0 && o1[f] != o0[f] ==>
          (o0[f].Free? || Belongs(o0[f], f, r)) && (o1[f].Free? || Belongs(o1[f], f, r)))
    && (forall f :: f in o0 && !o0[f].Free? && !Belongs(o0[f], f, r) ==> m1[f] == m0[f])
  }

  lemma LocalReflexive(m: Frames, o: Owners, r: nat)
    requires o.Keys == m.Keys
    ensures Local(m, o, m, o, r)
  {
  }

  lemma LocalTransitive(m0: Frames, o0: Owners, m1: Frames, o1: Owners, m2: Frames, o2: Owners, r: nat)
    requires Local(m0, o0, m1, o1, r) && Local(m1, o1, m2, o2, r)
    ensures Local(m0, o0, m2, o2, r)
  {
  }

  lemma ExtendsIsLocal(m0: Frames, o0: Owners, m1: Frames, o1: Owners, r: nat)
    requires Extends(m0, o0, m1, o1, r) && r in o0 && o0[r].Root?
    ensures Local(m0, o0, m1, o1, r)
  {
  }

  /** Frames of another address space keep their contents, so nothing it maps changes. */
  lemma OtherMapSame(m0: Frames, o0: Owners, m1: Frames, o1: Owners, r: nat, s: nat)
    requires Local(m0, o0, m1, o1, r) && s != r && s in o0 && o0[s].Root? && TreeOk(m0, o0, s)
    ensures TreeOk(m1, o1, s) && SameLeaves(m0, m1, s)
  {
    TablesSame(m0, o0, m1, o1, s);
  }

  /** A local change keeps all maps in order if it keeps, or does away with, its own. */
  lemma LocalKeepsMaps(m0: Frames, o0: Owners, m1: Frames, o1: Owners, r: nat)
    requires MapsOk(m0, o0) && Local(m0, o0, m1, o1, r) && r in o0 && o0[r].Root?
    requires if o1[r].Root? then TreeOk(m1, o1, r) else forall f :: f in o1 ==> !IsTableOf(o1[f], r)
    ensures MapsOk(m1, o1)
    ensures forall s :: s in o0 && o0[s].Root? && s != r ==> o1[s].Root? && SameLeaves(m0, m1, s)
  {
    hide TreeOk, SameLeaves, Local;
    LocalRoots(m0, o0, m1, o1, r);
    forall s | s in o0 && o0[s].Root? && s != r
      ensures TreeOk(m1, o1, s) && SameLeaves(m0, m1, s)
    {
      OtherMapSame(m0, o0, m1, o1, r, s);
    }
  }

  lemma LocalRoots(m0: Frames, o0: Owners, m1: Frames, o1: Owners, r: nat)
    requires Local(m0, o0, m1, o1, r)
    ensures o0.Keys == o1.Keys
    ensures forall s :: s in o0 && s != r ==> (o0[s].Root? <==> o1[s].Root?)
    ensures forall f :: f in o1 && (o1[f].Pdpt? || o1[f].Pd?) ==> IsTableOf(o1[f], r) || o1[f] == o0[f]
  {
  }

  /** Extending one map in order keeps all of them in order. */
  lemma ExtendsKeepsMaps(m0: Frames, o0: Owners, m1: Frames, o1: Owners, r: nat)
    requires MapsOk(m0, o0) && Extends(m0, o0, m1, o1, r) && r in o0 && o0[r].Root? && TreeOk(m1, o1, r)
    ensures MapsOk(m1, o1)
  {
    hide TreeOk;
    ExtendsIsLocal(m0, o0, m1, o1, r);
    LocalKeepsMaps(m0, o0, m1, o1, r);
  }

  /** Hanging a zeroed PDPT p behind entry i of r maps nothing new. */
  lemma AddPdpt(m: Frames, o: Owners, r: nat, i: nat, p: nat, w: nat, m': Frames, o': Owners)
    requires o.Keys == m.Keys && r in o && o[r].Root? && TreeOk(m, o, r)
    requires i < ENTRIES <= |m[r]| && Next(m, r, i) == None
    requires p in o && o[p].Free?
    requires Present(w) && P2V(PdeAddr(w)) == p
    requires m' == Put(m[p := Zeros()], r, i, w) && o' == o[p := Pdpt(r, i)]
    ensures TreeOk(m', o', r) && SameLeaves(m, m', r) && Extends(m, o, m', o', r)
    ensures forall i' :: 0 <= i' < ENTRIES ==> Next(m', r, i') == if i' == i then Some(p) else Next(m, r, i')
    ensures forall i', j' :: 0 <= i' < ENTRIES && 0 <= j' < ENTRIES ==> PdAt(m', r, i', j') == PdAt(m, r, i', j')
  {
    forall i' | 0 <= i' < ENTRIES
      ensures Next(m', r, i') == if i' == i then Some(p) else Next(m, r, i')
    {
    }
    forall i', j' | 0 <= i' < ENTRIES && 0 <= j' < ENTRIES
      ensures PdAt(m', r, i', j') == PdAt(m, r, i', j')
    {
      var q := Next(m, r, i');
      if i' != i && q.Some? {
        assert o[q.value] == Pdpt(r, i');
      }
    }
    forall i', j', k | 0 <= i' < ENTRIES && 0 <= j' < ENTRIES && 0 <= k < ENTRIES
      ensures Leaf(m', r, i', j', k) == Leaf(m, r, i', j', k)
    {
      var d := PdAt(m, r, i', j');
      if d.Some? {
        assert o[d.value] == Pd(r, i', j');
      }
    }
  }

  /** Hanging a zeroed PD d behind entry j of the PDPT p maps nothing new. */
  lemma AddPd(m: Frames, o: Owners, r: nat, i: nat, j: nat, p: nat, d: nat, w: nat, m': Frames, o': Owners)
    requires o.Keys == m.Keys && r in o && o[r].Root? && TreeOk(m, o, r)
    requires i < ENTRIES && j < ENTRIES && Next(m, r, i) == Some(p) && ENTRIES <= |m[p]| && Next(m, p, j) == None
    requires d in o && o[d].Free?
    requires Present(w) && P2V(PdeAddr(w)) == d
    requires m' == Put(m[d := Zeros()], p, j, w) && o' == o[d := Pd(r, i, j)]
    ensures TreeOk(m', o', r) && SameLeaves(m, m', r) && Extends(m, o, m', o', r)
    ensures forall i' :: 0 <= i' < ENTRIES ==> Next(m', r, i') == Next(m, r, i')
    ensures forall i', j' :: 0 <= i' < ENTRIES && 0 <= j' < ENTRIES ==>
              PdAt(m', r, i', j') == if i' == i && j' == j then Some(d) else PdAt(m, r, i', j')
  {
    AddPdTables(m, o, r, i, j, p, d, w, m', o');
    AddPdLeaves(m, o, r, i, j, p, d, w, m', o');
    hide Next, PdAt, Leaf, SameLeaves;
  }

  lemma AddPdTables(m: Frames, o: Owners, r: nat, i: nat, j: nat, p: nat, d: nat, w: nat, m': Frames, o': Owners)
    requires o.Keys == m.Keys && r in o && o[r].Root? && TreeOk(m, o, r)
    requires i < ENTRIES && j < ENTRIES && Next(m, r, i) == Some(p) && ENTRIES <= |m[p]| && Next(m, p, j) == None
    requires d in o && o[d].Free?
    requires Present(w) && P2V(PdeAddr(w)) == d
    requires m' == Put(m[d := Zeros()], p, j, w) && o' == o[d := Pd(r, i, j)]
    ensures o[p] == Pdpt(r, i)
    ensures forall i' :: 0 <= i' < ENTRIES ==> Next(m', r, i') == Next(m, r, i')
    ensures forall i', j' :: 0 <= i' < ENTRIES && 0 <= j' < ENTRIES ==>
              PdAt(m', r, i', j') == if i' == i && j' == j then Some(d) else PdAt(m, r, i', j')
  {
    assert o[p] == Pdpt(r, i);
    forall i' | 0 <= i' < ENTRIES
      ensures Next(m', r, i') == Next(m, r, i')
    {
    }
    forall i', j' | 0 <= i' < ENTRIES && 0 <= j' < ENTRIES
      ensures PdAt(m', r, i', j') == if i' == i && j' == j then Some(d) else PdAt(m, r, i', j')
    {
      var q := Next(m, r, i');
      if q.Some? {
        assert o[q.value] == Pdpt(r, i');
      }
    }
  }

  lemma AddPdLeaves(m: Frames, o: Owners, r: nat, i: nat, j: nat, p: nat, d: nat, w: nat, m': Frames, o': Owners)
    requires o.Keys == m.Keys && r in o && o[r].Root? && TreeOk(m, o, r)
    requires i < ENTRIES && j < ENTRIES && Next(m, r, i) == Some(p) && ENTRIES <= |m[p]| && Next(m, p, j) == None
    requires d in o && o[d].Free?
    requires Present(w) && P2V(PdeAddr(w)) == d
    requires m' == Put(m[d := Zeros()], p, j, w) && o' == o[d := Pd(r, i, j)]
    ensures SameLeaves(m, m', r)
  {
    AddPdTables(m, o, r, i, j, p, d, w, m', o');
    forall i', j', k | 0 <= i' < ENTRIES && 0 <= j' < ENTRIES && 0 <= k < ENTRIES
      ensures Leaf(m', r, i', j', k) == Leaf(m, r, i', j', k)
    {
      var e := PdAt(m, r, i', j');
      if e.Some? {
        assert o[e.value] == Pd(r, i', j');
      }
    }
  }

  function WordLeaf(w: nat): Option<nat> {
    if Present(w) then Some(w) else None
  }

  /** Writing a word into entry k of the PD d changes the mapping of one page and no other. */
  lemma SetLeaf(m: Frames, o: Owners, r: nat, i: nat, j: nat, k: nat, d: nat, w: nat, m': Frames)
    requires o.Keys == m.Keys && r in o && o[r].Root? && TreeOk(m, o, r)
    requires i < ENTRIES && j < ENTRIES && k < ENTRIES && PdAt(m, r, i, j) == Some(d) && ENTRIES <= |m[d]|
    requires m' == Put(m, d, k, w)
    ensures TreeOk(m', o, r) && Extends(m, o, m', o, r)
    ensures forall i' :: 0 <= i' < ENTRIES ==> Next(m', r, i') == Next(m, r, i')
    ensures forall i', j' :: 0 <= i' < ENTRIES && 0 <= j' < ENTRIES ==> PdAt(m', r, i', j') == PdAt(m, r, i', j')
    ensures forall i', j', k' :: 0 <= i' < ENTRIES && 0 <= j' < ENTRIES && 0 <= k' < ENTRIES ==>
              Leaf(m', r, i', j', k') == if i' == i && j' == j && k' == k then WordLeaf(w) else Leaf(m, r, i', j', k')
  {
    assert o[d] == Pd(r, i, j);
    forall i' | 0 <= i' < ENTRIES
      ensures Next(m', r, i') == Next(m, r, i')
    {
    }
    forall i', j' | 0 <= i' < ENTRIES && 0 <= j' < ENTRIES
      ensures PdAt(m', r, i', j') == PdAt(m, r, i', j')
    {
      var q := Next(m, r, i');
      if q.Some? {
        assert o[q.value] == Pdpt(r, i');
      }
    }
    forall i', j', k' | 0 <= i' < ENTRIES && 0 <= j' < ENTRIES && 0 <= k' < ENTRIES
      ensures Leaf(m', r, i', j', k') == if i' == i && j' == j && k' == k then WordLeaf(w) else Leaf(m, r, i', j', k')
    {
      var e := PdAt(m, r, i', j');
      if e.Some? {
        assert o[e.value] == Pd(r, i', j');
      }
    }
  }

  /** The tables that must be added below r before a page behind entries i and j can be mapped. */
  function Missing(m: Frames, r: nat, i: nat, j: nat): nat {
    (if Next(m, r, i).None? then 1 else 0) + (if PdAt(m, r, i, j).None? then 1 else 0)
  }

  lemma SamePageLeaves(m0: Frames, m1: Frames, r: nat)
    requires SameLeaves(m0, m1, r)
    ensures forall q :: 0 <= q < PAGES ==> PageLeaf(m1, r, q) == PageLeaf(m0, r, q)
  {
  }

  /** Changing the leaf behind one triple of indexes changes the page with these indexes only. */
  lemma OneLeafOnePage(m0: Frames, m1: Frames, r: nat, q0: nat, w: Option<nat>)
    requires q0 < PAGES
    requires forall i, j, k :: 0 <= i < ENTRIES && 0 <= j < ENTRIES && 0 <= k < ENTRIES ==>
               Leaf(m1, r, i, j, k) == if i == q0 / 0x4_0000 && j == q0 / ENTRIES % ENTRIES && k == q0 % ENTRIES
                                       then w else Leaf(m0, r, i, j, k)
    ensures forall q :: 0 <= q < PAGES ==> PageLeaf(m1, r, q) == if q == q0 then w else PageLeaf(m0, r, q)
  {
    forall q | 0 <= q < PAGES
      ensures PageLeaf(m1, r, q) == if q == q0 then w else PageLeaf(m0, r, q)
    {
      hide Leaf;
      var i, j, k := q / 0x4_0000, q / ENTRIES % ENTRIES, q % ENTRIES;
      if i == q0 / 0x4_0000 && j == q0 / ENTRIES % ENTRIES && k == q0 % ENTRIES {
        SamePage(q, q0);
      }
    }
  }

  /** What TreeOk says about one page directory. */
  lemma TableInPlace(m: Frames, o: Owners, r: nat, i: nat, j: nat, d: nat)
    requires MapsOk(m, o) && r in o && o[r].Root? && i < ENTRIES && j < ENTRIES && PdAt(m, r, i, j) == Some(d)
    ensures TreeOk(m, o, r) && d in o && o[d] == Pd(r, i, j)
  {
  }

  /** Of the free frames f0 the first need, or all if there are fewer, have been taken, and
      they have become the tables behind entries i and j of r. */
  ghost predicate TookTables(o0: Owners, f0: seq<nat>, o1: Owners, f1: seq<nat>, r: nat, i: nat, j: nat, need: nat) {
    && f1 == f0[Min(need, |f0|)..]
    && o1.Keys == o0.Keys
    && forall f :: f in o1 && o1[f] != o0[f] ==> o1[f] == Pdpt(r, i) || o1[f] == Pd(r, i, j)
  }

  lemma TookNothingMore(o0: Owners, f0: seq<nat>, o1: Owners, f1: seq<nat>, o2: Owners, f2: seq<nat>, r: nat, i: nat, j: nat, need: nat)
    requires TookTables(o0, f0, o1, f1, r, i, j, need) && TookTables(o1, f1, o2, f2, r, i, j, 0)
    ensures TookTables(o0, f0, o2, f2, r, i, j, need)
  {
  }

  // ------------------------------------------------------------------------ teardown

  /** Freeing a mapped user frame writes a link into it, but it is not a table. */
  lemma RemoveUser(m: Frames, o: Owners, r: nat, f: nat, link: nat, m': Frames, o': Owners)
    requires o.Keys == m.Keys && r in o && o[r].Root? && TreeOk(m, o, r)
    requires f in o && o[f].User? && o[f].root == r && 0 < |m[f]|
    requires m' == Put(m, f, 0, link) && o' == o[f := Free]
    ensures TreeOk(m', o', r) && SameLeaves(m, m', r) && Local(m, o, m', o', r)
    ensures forall i' :: 0 <= i' < ENTRIES ==> Next(m', r, i') == Next(m, r, i')
    ensures forall i', j' :: 0 <= i' < ENTRIES && 0 <= j' < ENTRIES ==> PdAt(m', r, i', j') == PdAt(m, r, i', j')
  {
    forall i' | 0 <= i' < ENTRIES
      ensures Next(m', r, i') == Next(m, r, i')
    {
    }
    forall i', j' | 0 <= i' < ENTRIES && 0 <= j' < ENTRIES
      ensures PdAt(m', r, i', j') == PdAt(m, r, i', j')
    {
      var q := Next(m, r, i');
      assert q.Some? ==> o[q.value] == Pdpt(r, i');
    }
    forall i', j', k' | 0 <= i' < ENTRIES && 0 <= j' < ENTRIES && 0 <= k' < ENTRIES
      ensures Leaf(m', r, i', j', k') == Leaf(m, r, i', j', k')
    {
      var e := PdAt(m, r, i', j');
      assert e.Some? ==> o[e.value] == Pd(r, i', j');
    }
  }

  /** Freeing the PD d (which writes a link into it) and clearing the entry j of the PDPT p
      that points to it takes d out of the tree. */
  lemma RemovePd(m: Frames, o: Owners, r: nat, i: nat, j: nat, p: nat, d: nat, link: nat, m': Frames, o': Owners)
    requires o.Keys == m.Keys && r in o && o[r].Root? && TreeOk(m, o, r)
    requires i < ENTRIES && j < ENTRIES && Next(m, r, i) == Some(p) && ENTRIES <= |m[p]|
    requires Next(m, p, j) == Some(d) && d in m && 0 < |m[d]| && d != p
    requires m' == Put(Put(m, d, 0, link), p, j, 0) && o' == o[d := Free]
    ensures TreeOk(m', o', r) && Local(m, o, m', o', r)
    ensures forall i' :: 0 <= i' < ENTRIES ==> Next(m', r, i') == Next(m, r, i')
    ensures forall i', j' :: 0 <= i' < ENTRIES && 0 <= j' < ENTRIES ==>
              PdAt(m', r, i', j') == if i' == i && j' == j then None else PdAt(m, r, i', j')
  {
    assert o[p] == Pdpt(r, i) && PdAt(m, r, i, j) == Some(d) && o[d] == Pd(r, i, j);
    forall i' | 0 <= i' < ENTRIES
      ensures Next(m', r, i') == Next(m, r, i')
    {
    }
    forall i', j' | 0 <= i' < ENTRIES && 0 <= j' < ENTRIES
      ensures PdAt(m', r, i', j') == if i' == i && j' == j then None else PdAt(m, r, i', j')
    {
      var q := Next(m, r, i');
      if q.Some? {
        assert o[q.value] == Pdpt(r, i');
      }
    }
  }

  ghost predicate NoPdsOf(o: Owners, r: nat) {
    forall f :: f in o ==> !(o[f].Pd? && o[f].root == r)
  }

  lemma NoPdsKept(o: Owners, r: nat, f: nat)
    requires NoPdsOf(o, r)
    ensures NoPdsOf(o[f := Free], r)
  {
  }

  /** The same for a PDPT p that has no page directory below it any more. */
  lemma RemovePdpt(m: Frames, o: Owners, r: nat, i: nat, p: nat, link: nat, m': Frames, o': Owners)
    requires o.Keys == m.Keys && r in o && o[r].Root? && TreeOk(m, o, r) && ENTRIES <= |m[r]|
    requires i < ENTRIES && Next(m, r, i) == Some(p) && p in m && 0 < |m[p]| && p != r
    requires NoPdsOf(o, r)
    requires m' == Put(Put(m, p, 0, link), r, i, 0) && o' == o[p := Free]
    ensures TreeOk(m', o', r) && Local(m, o, m', o', r)
    ensures forall i' :: 0 <= i' < ENTRIES ==> Next(m', r, i') == if i' == i then None else Next(m, r, i')
  {
    assert o[p] == Pdpt(r, i);
    forall i' | 0 <= i' < ENTRIES
      ensures Next(m', r, i') == if i' == i then None else Next(m, r, i')
    {
    }
    forall i', j' | 0 <= i' < ENTRIES && 0 <= j' < ENTRIES
      ensures PdAt(m', r, i', j') == None
    {
      assert PdAt(m, r, i', j') == None;
      var q := Next(m, r, i');
      assert q.Some? ==> o[q.value] == Pdpt(r, i');
    }
  }

  /** f is the frame mapped at its page of r. */
  ghost predicate IsMapped(m: Frames, o: Owners, r: nat, f: nat)
    requires f in o
  {
    && o[f].User? && o[f].root == r && o[f].q < PAGES
    && PageLeaf(m, r, o[f].q).Some? && P2V(PteAddr(PageLeaf(m, r, o[f].q).value)) == f
  }

  /** If page q of r is mapped, the frame it is mapped to belongs to it. */
  ghost predicate OwnsPage(m: Frames, o: Owners, r: nat, q: nat) {
    var w := PageLeaf(m, r, q);
    w.Some? ==> P2V(PteAddr(w.value)) in o && o[P2V(PteAddr(w.value))] == User(r, q)
  }

  /** The n pages of r from q0 on have been unmapped. */
  ghost predicate RangeUnmapped(m0: Frames, m1: Frames, r: nat, q0: nat, n: nat) {
    forall q :: 0 <= q < PAGES ==> PageLeaf(m1, r, q) == if PageOffset(q, q0) < n then None else PageLeaf(m0, r, q)
  }

  /** The frames mapped at these pages have been freed, and no other frame has changed hands. */
  ghost predicate RangeFreed(m0: Frames, o0: Owners, o1: Owners, r: nat, q0: nat, n: nat) {
    && o1.Keys == o0.Keys
    && forall f :: f in o0 ==>
         o1[f] == if IsMapped(m0, o0, r, f) && PageOffset(o0[f].q, q0) < n then Free else o0[f]
  }

  lemma NothingUnmapped(m: Frames, o: Owners, r: nat, q0: nat)
    ensures RangeUnmapped(m, m, r, q0, 0) && RangeFreed(m, o, o, r, q0, 0)
  {
  }

  lemma UnmapsOneMore(m0: Frames, o0: Owners, m1: Frames, o1: Owners, m2: Frames, o2: Owners, r: nat, v: nat, t: nat)
    requires Aligned(v) && t < PAGES
    requires RangeUnmapped(m0, m1, r, PageOf(v), t) && RangeFreed(m0, o0, o1, r, PageOf(v), t)
    requires OwnsPage(m0, o0, r, PageOf(v + t * PAGE_SIZE))
    requires forall q :: 0 <= q < PAGES ==> PageLeaf(m2, r, q) == if q == PageOf(v + t * PAGE_SIZE) then None else PageLeaf(m1, r, q)
    requires o2 == var w := PageLeaf(m1, r, PageOf(v + t * PAGE_SIZE)); if w.None? then o1 else o1[P2V(PteAddr(w.value)) := Free]
    ensures RangeUnmapped(m0, m2, r, PageOf(v), t + 1) && RangeFreed(m0, o0, o2, r, PageOf(v), t + 1)
  {
    NextPages(v, t);
    var q0, q1 := PageOf(v), PageOf(v + t * PAGE_SIZE);
    assert PageOffset(q1, q0) == t && PageLeaf(m1, r, q1) == PageLeaf(m0, r, q1);
    hide PageLeaf, PageOffset, PageOf, P2V, PteAddr;
    forall f | f in o0
      ensures o2[f] == if IsMapped(m0, o0, r, f) && PageOffset(o0[f].q, q0) < t + 1 then Free else o0[f]
    {
      if IsMapped(m0, o0, r, f) && o0[f].q == q1 {
        assert PageLeaf(m1, r, q1).Some? && o2[f] == Free;
      }
    }
  }

  lemma StillOwnsPage(m0: Frames, o0: Owners, m1: Frames, o1: Owners, r: nat, v: nat, t: nat)
    requires Aligned(v) && t < PAGES
    requires RangeUnmapped(m0, m1, r, PageOf(v), t) && RangeFreed(m0, o0, o1, r, PageOf(v), t)
    requires OwnsPage(m0, o0, r, PageOf(v + t * PAGE_SIZE))
    ensures OwnsPage(m1, o1, r, PageOf(v + t * PAGE_SIZE))
  {
    NextPages(v, t);
    hide PageLeaf, PageOffset, PageOf, P2V, PteAddr;
  }

  lemma FrameFacts(m: Frames, o: Owners, kernelEnd: nat, f: nat)
    requires FramesOk(m, o, kernelEnd) && f in o
    ensures f in m && FrameAddress(f) && |m[f]| == WORDS && o.Keys == m.Keys
  {
  }

  /** The page directories of r behind the pairs of entries before (i, j) have been freed, and
      no other frame has changed hands. */
  ghost predicate PdsFreed(o0: Owners, o1: Owners, r: nat, i: nat, j: nat) {
    && o1.Keys == o0.Keys
    && forall f :: f in o0 ==>
         o1[f] == if o0[f].Pd? && o0[f].root == r && (o0[f].i < i || (o0[f].i == i && o0[f].j < j)) then Free else o0[f]
  }

  lemma PdsFreedNext(m: Frames, o0: Owners, o1: Owners, o2: Owners, r: nat, i: nat, j: nat, p: nat)
    requires TreeOk(m, o1, r) && PdsFreed(o0, o1, r, i, j) && i < ENTRIES && j < ENTRIES && Next(m, r, i) == Some(p)
    requires o2 == if Next(m, p, j).None? then o1 else o1[Next(m, p, j).value := Free]
    ensures PdsFreed(o0, o2, r, i, j + 1)
  {
    assert PdAt(m, r, i, j) == Next(m, p, j);
    if Next(m, p, j).Some? {
      assert o1[Next(m, p, j).value] == Pd(r, i, j);
    }
  }

  /** Nothing hangs behind an absent entry, and no table has more than 512 entries. */
  lemma PdsFreedRow(m: Frames, o0: Owners, o1: Owners, r: nat, i: nat, j: nat)
    requires TreeOk(m, o1, r) && PdsFreed(o0, o1, r, i, j) && i < ENTRIES
    requires Next(m, r, i).None? || j == ENTRIES
    ensures PdsFreed(o0, o1, r, i + 1, 0)
  {
    forall f | f in o0 && o0[f].Pd? && o0[f].root == r && o0[f].i == i
      ensures o0[f].j < j
    {
      assert o1[f] == o0[f] || o0[f].j < j;
    }
  }

  /** The same for the page-directory-pointer tables behind the entries before i. */
  ghost predicate PdptsFreed(o0: Owners, o1: Owners, r: nat, i: nat) {
    && o1.Keys == o0.Keys
    && forall f :: f in o0 ==> o1[f] == if o0[f].Pdpt? && o0[f].root == r && o0[f].i < i then Free else o0[f]
  }

  lemma PdptsFreedNext(m: Frames, o0: Owners, o1: Owners, o2: Owners, r: nat, i: nat)
    requires TreeOk(m, o1, r) && PdptsFreed(o0, o1, r, i) && i < ENTRIES
    requires o2 == if Next(m, r, i).None? then o1 else o1[Next(m, r, i).value := Free]
    ensures PdptsFreed(o0, o2, r, i + 1)
  {
    if Next(m, r, i).Some? {
      assert o1[Next(m, r, i).value] == Pdpt(r, i);
    }
  }

  lemma NothingFreed(o: Owners, r: nat)
    ensures PdsFreed(o, o, r, 0, 0) && PdptsFreed(o, o, r, 0)
  {
  }

  /** What TreeOk says about one PDPT. */
  lemma PdptInPlace(m: Frames, o: Owners, r: nat, i: nat, p: nat)
    requires MapsOk(m, o) && r in o && o[r].Root? && i < ENTRIES && Next(m, r, i) == Some(p)
    ensures TreeOk(m, o, r) && p in o && o[p] == Pdpt(r, i)
  {
  }

  /** The user page of r, and no other, may be mapped to a frame of its own, and every such
      frame is mapped. */
  ghost predicate UserOk(m: Frames, o: Owners, r: nat) {
    && OwnsPage(m, o, r, USER_PAGE)
    && forall f :: f in o && o[f].User? && o[f].root == r ==> o[f].q == USER_PAGE && IsMapped(m, o, r, f)
  }

  ghost predicate UsersOk(m: Frames, o: Owners) {
    && (forall f :: f in o && o[f].User? ==> o[f].root in o && o[o[f].root].Root?)
    && (forall r :: r in o && o[r].Root? ==> UserOk(m, o, r))
  }

  lemma LocalKeepsUsers(m0: Frames, o0: Owners, m1: Frames, o1: Owners, r: nat)
    requires MapsOk(m0, o0) && UsersOk(m0, o0) && Local(m0, o0, m1, o1, r) && r in o0 && o0[r].Root?
    requires if o1[r].Root? then UserOk(m1, o1, r) else forall f :: f in o1 ==> !(o1[f].User? && o1[f].root == r)
    ensures UsersOk(m1, o1)
  {
    hide TreeOk, OwnsPage, IsMapped;
    forall s | s in o0 && o0[s].Root? && s != r
      ensures o1[s].Root? && UserOk(m1, o1, s)
    {
      OtherUserSame(m0, o0, m1, o1, r, s);
    }
    forall f | f in o1 && o1[f].User?
      ensures o1[f].root in o1 && o1[o1[f].root].Root?
    {
      assert Belongs(o1[f], f, r) || o1[f] == o0[f];
    }
  }

  /** Every frame of the address space r has been freed, and no other frame has changed hands. */
  ghost predicate MapFreed(o0: Owners, o1: Owners, r: nat) {
    && o1.Keys == o0.Keys
    && forall f :: f in o0 ==> o1[f] == if Belongs(o0[f], f, r) then Free else o0[f]
  }

  /** The four stages of a teardown free exactly the frames of the address space. */
  lemma StagesFreeMap(m0: Frames, o0: Owners, o1: Owners, o2: Owners, o3: Owners, r: nat)
    requires r in o0 && o0[r].Root? && UserOk(m0, o0, r)
    requires RangeFreed(m0, o0, o1, r, USER_PAGE, 1)
    requires PdsFreed(o1, o2, r, ENTRIES, 0) && PdptsFreed(o2, o3, r, ENTRIES)
    requires forall f :: f in o1 && IsTableOf(o1[f], r) ==> o1[f].i < ENTRIES
    requires forall f :: f in o2 && IsTableOf(o2[f], r) ==> o2[f].i < ENTRIES
    ensures MapFreed(o0, o3[r := Free], r)
    ensures forall f :: f in o3 ==> !IsTableOf(o3[f], r) && !(o3[f].User? && o3[f].root == r)
  {
    hide PageLeaf, P2V, PteAddr;
    assert PageOffset(USER_PAGE, USER_PAGE) == 0;
  }

  lemma UserRange(m: Frames, o: Owners, r: nat)
    requires UsersOk(m, o) && r in o && o[r].Root?
    ensures UserOk(m, o, r)
    ensures PageOf(0x40_0000) == USER_PAGE && Aligned(0x40_0000)
    ensures forall q :: 0 <= q < PAGES && PageOffset(q, USER_PAGE) < 1 ==> OwnsPage(m, o, r, q)
  {
    hide OwnsPage;
    forall q | 0 <= q < PAGES && PageOffset(q, USER_PAGE) < 1
      ensures q == USER_PAGE
    {
    }
  }

  lemma TablesInRange(m: Frames, o: Owners, r: nat)
    requires MapsOk(m, o) && r in o && o[r].Root?
    ensures forall f :: f in o && IsTableOf(o[f], r) ==> o[f].i < ENTRIES
  {
  }

  lemma NoPdsLeft(o1: Owners, o2: Owners, r: nat)
    requires PdsFreed(o1, o2, r, ENTRIES, 0)
    requires forall f :: f in o1 && IsTableOf(o1[f], r) ==> o1[f].i < ENTRIES
    ensures NoPdsOf(o2, r)
  {
  }

  /** A zeroed frame taken from the allocator is an empty address space. */
  lemma NewRoot(m: Frames, o: Owners, r: nat, m': Frames, o': Owners)
    requires o.Keys == m.Keys && MapsOk(m, o) && UsersOk(m, o) && r in o && o[r].Free?
    requires m' == m[r := Zeros()] && o' == o[r := Root]
    ensures MapsOk(m', o') && UsersOk(m', o') && Local(m, o, m', o', r)
    ensures forall q :: 0 <= q < PAGES ==> PageLeaf(m', r, q) == None
    ensures forall i, j :: 0 <= i < ENTRIES && 0 <= j < ENTRIES ==> Missing(m', r, i, j) == 2
    ensures forall f :: f in o' && Belongs(o'[f], f, r) ==> f == r
  {
    hide Zeros, PageLeaf, PdAt, Next, Missing, TreeOk, UserOk, MapsOk, UsersOk;
    NothingMapped(m', r);
    NothingBelongs(m, o, r);
    EmptyTree(m', o', r);
    NewRootKeepsMaps(m, o, r, m', o');
    NewRootKeepsUsers(m, o, r, m', o');
  }

  lemma NewRootKeepsMaps(m: Frames, o: Owners, r: nat, m': Frames, o': Owners)
    requires o.Keys == m.Keys && MapsOk(m, o) && r in o && o[r].Free? && Local(m, o, m', o', r) && o' == o[r := Root]
    requires TreeOk(m', o', r)
    ensures MapsOk(m', o')
  {
    hide TreeOk, SameLeaves, Local;
    forall s | s in o && o[s].Root?
      ensures TreeOk(m', o', s)
    {
      OtherMapSame(m, o, m', o', r, s);
    }
  }

  lemma NewRootKeepsUsers(m: Frames, o: Owners, r: nat, m': Frames, o': Owners)
    requires o.Keys == m.Keys && MapsOk(m, o) && UsersOk(m, o) && r in o && o[r].Free?
    requires Local(m, o, m', o', r) && o' == o[r := Root]
    requires UserOk(m', o', r)
    ensures UsersOk(m', o')
  {
    hide TreeOk, UserOk, Local;
    forall s | s in o && o[s].Root?
      ensures UserOk(m', o', s)
    {
      OtherUserSame(m, o, m', o', r, s);
    }
  }

  lemma NothingMapped(m: Frames, r: nat)
    requires r in m && m[r] == Zeros()
    ensures forall i :: 0 <= i < ENTRIES ==> Next(m, r, i) == None
    ensures forall q :: 0 <= q < PAGES ==> PageLeaf(m, r, q) == None
    ensures forall i, j :: 0 <= i < ENTRIES && 0 <= j < ENTRIES ==> PdAt(m, r, i, j) == None && Missing(m, r, i, j) == 2
  {
    forall i | 0 <= i < ENTRIES
      ensures Next(m, r, i) == None
    {
    }
  }

  lemma EmptyTree(m: Frames, o: Owners, r: nat)
    requires forall i :: 0 <= i < ENTRIES ==> Next(m, r, i) == None
    requires PageLeaf(m, r, USER_PAGE) == None
    requires forall f :: f in o && Belongs(o[f], f, r) ==> f == r && o[f].Root?
    ensures TreeOk(m, o, r) && UserOk(m, o, r)
  {
    hide Next, PageLeaf;
  }

  lemma OtherUserSame(m0: Frames, o0: Owners, m1: Frames, o1: Owners, r: nat, s: nat)
    requires Local(m0, o0, m1, o1, r) && s != r && s in o0 && o0[s].Root? && TreeOk(m0, o0, s) && UserOk(m0, o0, s)
    ensures o1[s].Root? && UserOk(m1, o1, s)
  {
    OtherMapSame(m0, o0, m1, o1, r, s);
    SamePageLeaves(m0, m1, s);
    hide TreeOk, PageLeaf, P2V, PteAddr, SameLeaves;
  }

  /** No frame that was in use has changed its owner or its contents. */
  ghost predicate KeptInUse(m0: Frames, o0: Owners, m1: Frames, o1: Owners) {
    && o0.Keys == o1.Keys == m0.Keys == m1.Keys
    && forall f :: f in o0 && !o0[f].Free? ==> o1[f] == o0[f] && m1[f] == m0[f]
  }

  /** If nothing that was in use belonged to r, local changes leave everything in use alone. */
  lemma LocalKeepsInUse(m0: Frames, o0: Owners, m1: Frames, o1: Owners, r: nat)
    requires Local(m0, o0, m1, o1, r)
    requires forall f :: f in o0 ==> !Belongs(o0[f], f, r)
    ensures KeptInUse(m0, o0, m1, o1)
    ensures forall f :: f in o0 ==> o1[f] == o0[f] || (o0[f].Free? && Belongs(o1[f], f, r))
  {
  }

  /** Nobody owns a frame on behalf of an address space whose PML4 table is not in use. */
  lemma NothingBelongs(m: Frames, o: Owners, r: nat)
    requires MapsOk(m, o) && UsersOk(m, o) && r in o && !o[r].Root?
    ensures forall f :: f in o ==> !Belongs(o[f], f, r)
  {
  }

  /** The frames that changed hands became r, or tables behind the given entries of it. */
  ghost predicate BecameTables(o0: Owners, o1: Owners, r: nat, i: nat, j: nat) {
    && o0.Keys == o1.Keys
    && forall f :: f in o1 && o1[f] != o0[f] ==> f == r || o1[f] == Pdpt(r, i) || o1[f] == Pd(r, i, j)
  }

  /** A map whose tables all hang behind entry i has none behind another entry. */
  lemma MissingElsewhere(m: Frames, o: Owners, o0: Owners, r: nat, i: nat, j: nat, i': nat, j': nat)
    requires TreeOk(m, o, r) && BecameTables(o0, o, r, i, j) && i' < ENTRIES && j' < ENTRIES && i' != i
    requires r in o && o[r].Root?
    requires forall f :: f in o0 ==> !Belongs(o0[f], f, r)
    ensures Missing(m, r, i', j') == 2
  {
    if Next(m, r, i').Some? {
      var p := Next(m, r, i').value;
      assert o[p] == Pdpt(r, i') && Belongs(o[p], p, r);
    }
  }

  /** A map that maps no user page and owns no user frame. */
  lemma NoUser(m: Frames, o: Owners, r: nat)
    requires PageLeaf(m, r, USER_PAGE) == None
    requires forall f :: f in o ==> !(o[f].User? && o[f].root == r)
    ensures UserOk(m, o, r)
  {
  }

  /** The whole of an address space: the first GB of physical memory at KERNEL_BASE, for the
      kernel only, at most one user page, and nothing else. */
  ghost predicate MapsExactly(m: Frames, r: nat, user: Option<nat>) {
    forall q :: 0 <= q < PAGES ==>
      var k := PageOffset(q, PageOf(KERNEL_BASE));
      PageLeaf(m, r, q) == if k < ENTRIES then Some(LeafWord(k * PAGE_SIZE, ATTR_KERNEL)) else if q == USER_PAGE then user else None
  }

  lemma KernelMapsExactly(m1: Frames, m2: Frames, r: nat)
    requires forall q :: 0 <= q < PAGES ==> PageLeaf(m1, r, q) == None
    requires RangeMapped(m1, m2, r, PageOf(KERNEL_BASE), ENTRIES, 0, ATTR_KERNEL)
    ensures MapsExactly(m2, r, None)
  {
    hide PageLeaf, PageOffset, PageOf, LeafWord;
  }

  lemma UserMapsExactly(m1: Frames, m2: Frames, r: nat, pa: nat)
    requires MapsExactly(m1, r, None) && RangeMapped(m1, m2, r, USER_PAGE, 1, pa, ATTR_USER)
    ensures MapsExactly(m2, r, Some(LeafWord(pa, ATTR_USER)))
  {
    KernelRange();
    UserNumbers();
    hide PageLeaf, PageOf, LeafWord, Index4, Index3, Index2, PaDown, PaUp, RangePages, Attributes;
  }

  lemma KeptReflexive(m: Frames, o: Owners)
    requires o.Keys == m.Keys
    ensures KeptInUse(m, o, m, o)
  {
  }

  lemma TookIsBecame(o0: Owners, o1: Owners, f1: seq<nat>, o2: Owners, f2: seq<nat>, r: nat, i: nat, j: nat)
    requires r in o0 && o1 == o0[r := Root] && TookTables(o1, f1, o2, f2, r, i, j, 2)
    ensures BecameTables(o0, o2, r, i, j) && f2 == f1[Min(2, |f1|)..]
  {
  }

  /** Building a map from free frames and tearing it down again restores all owners. */
  lemma Restored(m0: Frames, o0: Owners, m2: Frames, o2: Owners, o3: Owners, r: nat)
    requires Local(m0, o0, m2, o2, r) && MapFreed(o2, o3, r)
    requires forall f :: f in o0 ==> !Belongs(o0[f], f, r)
    ensures o3 == o0
  {
    forall f | f in o0
      ensures o3[f] == o0[f]
    {
    }
  }

  /** Mapping pages other than the user page leaves the user page alone. */
  lemma KernelOnly(m1: Frames, o1: Owners, m2: Frames, o2: Owners, r: nat, n: nat, attribute: nat)
    requires RangeMapped(m1, m2, r, PageOf(KERNEL_BASE), n, 0, attribute) && n <= ENTRIES
    requires Extends(m1, o1, m2, o2, r)
    requires PageLeaf(m1, r, USER_PAGE) == None
    requires forall f :: f in o1 && Belongs(o1[f], f, r) ==> f == r && o1[f].Root?
    ensures UserOk(m2, o2, r) && PageLeaf(m2, r, USER_PAGE) == None
  {
    KernelRange();
    hide PageLeaf, PageOf, PageOffset;
    NoUser(m2, o2, r);
  }

  lemma RootInOrder(m: Frames, o: Owners, r: nat)
    requires MapsOk(m, o) && r in o && o[r].Root?
    ensures TreeOk(m, o, r)
  {
  }

  // --------------------------------------------------------- frames outside the maps

  predicate InMap(o: Owner) {
    o.Root? || o.Pdpt? || o.Pd? || o.User?
  }

  /** Only frames that belong to no address space, before or after, have changed. */
  ghost predicate Apart(m0: Frames, o0: Owners, m1: Frames, o1: Owners) {
    && o0.Keys == o1.Keys == m0.Keys == m1.Keys
    && forall f :: f in o0 && (InMap(o0[f]) || InMap(o1[f])) ==> o1[f] == o0[f] && m1[f] == m0[f]
  }

  lemma ApartKeepsMaps(m0: Frames, o0: Owners, m1: Frames, o1: Owners)
    requires MapsOk(m0, o0) && UsersOk(m0, o0) && Apart(m0, o0, m1, o1)
    ensures MapsOk(m1, o1) && UsersOk(m1, o1)
    ensures forall r :: r in o0 && o0[r].Root? ==> SameMap(m0, o0, m1, o1, r)
  {
    hide TreeOk, UserOk, SameMap;
    forall r | r in o0 && o0[r].Root?
      ensures TreeOk(m1, o1, r) && UserOk(m1, o1, r) && SameMap(m0, o0, m1, o1, r)
    {
      ApartKeepsMap(m0, o0, m1, o1, r);
    }
  }

  /** Address space r translates as before, through the same tables. */
  ghost predicate SameMap(m0: Frames, o0: Owners, m1: Frames, o1: Owners, r: nat) {
    && r in o1 && o1[r].Root?
    && (forall q :: 0 <= q < PAGES ==> PageLeaf(m1, r, q) == PageLeaf(m0, r, q))
    && (forall i, j :: 0 <= i < ENTRIES && 0 <= j < ENTRIES ==> PdAt(m1, r, i, j) == PdAt(m0, r, i, j))
    && (forall i, j :: 0 <= i < ENTRIES && 0 <= j < ENTRIES ==> Missing(m1, r, i, j) == Missing(m0, r, i, j))
  }

  lemma ApartKeepsMap(m0: Frames, o0: Owners, m1: Frames, o1: Owners, r: nat)
    requires MapsOk(m0, o0) && UsersOk(m0, o0) && Apart(m0, o0, m1, o1) && r in o0 && o0[r].Root?
    ensures TreeOk(m1, o1, r) && UserOk(m1, o1, r) && SameMap(m0, o0, m1, o1, r)
  {
    hide Next, PdAt, Leaf, PageLeaf, P2V, PteAddr, SameLeaves, TreeOk;
    TablesSame(m0, o0, m1, o1, r);
    SamePageLeaves(m0, m1, r);
    TreeSame(m0, o0, m1, o1, r);
    ApartUser(m0, o0, m1, o1, r);
    hide UserOk, Apart;
  }

  lemma ApartUser(m0: Frames, o0: Owners, m1: Frames, o1: Owners, r: nat)
    requires UserOk(m0, o0, r) && Apart(m0, o0, m1, o1)
    requires forall q :: 0 <= q < PAGES ==> PageLeaf(m1, r, q) == PageLeaf(m0, r, q)
    ensures UserOk(m1, o1, r)
  {
    hide PageLeaf, P2V, PteAddr;
  }

  lemma TablesSame(m0: Frames, o0: Owners, m1: Frames, o1: Owners, r: nat)
    requires r in o0 && o0[r].Root? && TreeOk(m0, o0, r) && o0.Keys == o1.Keys == m0.Keys == m1.Keys
    requires forall f :: f in o0 && ((o0[f].Root? && f == r) || IsTableOf(o0[f], r)) ==> m1[f] == m0[f]
    ensures forall i :: 0 <= i < ENTRIES ==> Next(m1, r, i) == Next(m0, r, i)
    ensures forall i, j :: 0 <= i < ENTRIES && 0 <= j < ENTRIES ==> PdAt(m1, r, i, j) == PdAt(m0, r, i, j)
    ensures SameLeaves(m0, m1, r)
  {
    forall i | 0 <= i < ENTRIES
      ensures Next(m1, r, i) == Next(m0, r, i)
    {
    }
    forall i, j | 0 <= i < ENTRIES && 0 <= j < ENTRIES
      ensures PdAt(m1, r, i, j) == PdAt(m0, r, i, j)
    {
      var p := Next(m0, r, i);
      assert p.Some? ==> o0[p.value] == Pdpt(r, i) && m1[p.value] == m0[p.value];
    }
    forall i, j, k | 0 <= i < ENTRIES && 0 <= j < ENTRIES && 0 <= k < ENTRIES
      ensures Leaf(m1, r, i, j, k) == Leaf(m0, r, i, j, k)
    {
      var d := PdAt(m0, r, i, j);
      assert d.Some? ==> o0[d.value] == Pd(r, i, j) && m1[d.value] == m0[d.value];
    }
  }

  /** A free frame becoming a user frame of r, not yet mapped, changes no table. */
  lemma TakeUser(m: Frames, o: Owners, r: nat, p: nat, words: seq<nat>, m': Frames, o': Owners)
    requires MapsOk(m, o) && o.Keys == m.Keys && r in o && o[r].Root? && p in o && (o[p].Free? || o[p] == User(r, USER_PAGE))
    requires m' == m[p := words] && o' == o[p := User(r, USER_PAGE)]
    ensures MapsOk(m', o') && Local(m, o, m', o', r) && SameMap(m, o, m', o', r)
  {
    hide Next, PdAt, Leaf, PageLeaf, SameLeaves, TreeOk, SameMap, Local;
    RootInOrder(m, o, r);
    TakeUserTree(m, o, r, p, words, m', o');
    TakeUserLocal(m, o, r, p, words, m', o');
    LocalKeepsMaps(m, o, m', o', r);
  }

  lemma TakeUserLocal(m: Frames, o: Owners, r: nat, p: nat, words: seq<nat>, m': Frames, o': Owners)
    requires o.Keys == m.Keys && p in o && (o[p].Free? || o[p] == User(r, USER_PAGE))
    requires m' == m[p := words] && o' == o[p := User(r, USER_PAGE)]
    ensures Local(m, o, m', o', r)
  {
  }

  lemma TakeUserTree(m: Frames, o: Owners, r: nat, p: nat, words: seq<nat>, m': Frames, o': Owners)
    requires o.Keys == m.Keys && TreeOk(m, o, r) && r in o && o[r].Root? && p in o && (o[p].Free? || o[p].User?)
    requires m' == m[p := words] && o' == o[p := User(r, USER_PAGE)]
    ensures TreeOk(m', o', r) && SameMap(m, o, m', o', r)
  {
    hide Next, PdAt, Leaf, PageLeaf, SameLeaves, TreeOk;
    TablesSame(m, o, m', o', r);
    SamePageLeaves(m, m', r);
    TreeSame(m, o, m', o', r);
  }

  lemma TreeSame(m: Frames, o: Owners, m': Frames, o': Owners, r: nat)
    requires TreeOk(m, o, r) && o.Keys == o'.Keys
    requires forall f :: f in o ==> o'[f] == o[f] || (!IsTableOf(o[f], r) && !IsTableOf(o'[f], r))
    requires forall i :: 0 <= i < ENTRIES ==> Next(m', r, i) == Next(m, r, i)
    requires forall i, j :: 0 <= i < ENTRIES && 0 <= j < ENTRIES ==> PdAt(m', r, i, j) == PdAt(m, r, i, j)
    ensures TreeOk(m', o', r)
  {
    hide Next, PdAt;
  }

  /** The user page of r has been mapped to the frame p, which belongs to it. */
  lemma UserIsMapped(m0: Frames, m1: Frames, o1: Owners, r: nat, p: nat, attribute: nat)
    requires RangeMapped(m0, m1, r, USER_PAGE, 1, V2P(p), attribute) && Attributes(attribute)
    requires FrameAddress(p) && p in o1 && o1[p] == User(r, USER_PAGE)
    requires forall f :: f in o1 && o1[f].User? && o1[f].root == r ==> f == p
    ensures UserOk(m1, o1, r) && PageLeaf(m1, r, USER_PAGE) == Some(LeafWord(V2P(p), attribute))
  {
    assert PageOffset(USER_PAGE, USER_PAGE) == 0;
    assert V2P(p) + 0 * PAGE_SIZE == V2P(p);
    UserFrame(p);
    LeafWordMaps(V2P(p), attribute);
    hide PageLeaf, LeafWord, PteAddr, P2V, V2P, PageOffset;
  }

  lemma UserFrame(p: nat)
    requires FrameAddress(p)
    ensures P2V(V2P(p)) == p && Aligned(V2P(p)) && V2P(p) + PAGE_SIZE <= ONE_GB
  {
  }

  /** The numbers behind the user range, the one page at 0x400000. */
  lemma UserNumbers()
    ensures PageOf(0x40_0000) == USER_PAGE && Index4(0x40_0000) == 0 && Index3(0x40_0000) == 0 && Index2(0x40_0000) == 2
    ensures PaDown(0x40_0000) == 0x40_0000 && PaUp(0x40_0000 + PAGE_SIZE) == 0x40_0000 + PAGE_SIZE
    ensures RangePages(0x40_0000, 0x40_0000 + PAGE_SIZE) == 1 && Rounds(0x40_0000, 0x40_0000 + PAGE_SIZE) == 1 && Attributes(7)
    ensures LoopEnds(0x40_0000, 0x40_0000 + PAGE_SIZE)
    ensures forall q :: 0 <= q < PAGES ==> (PageOffset(q, USER_PAGE) < 1 <==> q == USER_PAGE)
  {
  }

  /** If no user page is mapped, no user frame is owned. */
  lemma NoUserFrames(m: Frames, o: Owners, r: nat)
    requires UsersOk(m, o) && r in o && o[r].Root? && PageLeaf(m, r, USER_PAGE) == None
    ensures forall f :: f in o ==> !(o[f].User? && o[f].root == r)
  {
    hide PageLeaf;
  }

  lemma UserKept(m1: Frames, o1: Owners, m2: Frames, o2: Owners, r: nat, page: nat)
    requires Extends(m1, o1, m2, o2, r) && page in o1 && o1[page] == User(r, USER_PAGE) && r in o1 && o1[r].Root?
    requires forall f :: f in o1 && o1[f].User? && o1[f].root == r ==> f == page
    ensures page in o2 && o2[page] == User(r, USER_PAGE) && page in m2 && page in m1 && m2[page] == m1[page]
    ensures forall f :: f in o2 && o2[f].User? && o2[f].root == r ==> f == page
  {
  }

  /** The frames that changed hands became the user page of r, or tables above it. */
  ghost predicate BecameUser(o0: Owners, o1: Owners, r: nat, page: nat) {
    && o0.Keys == o1.Keys
    && forall f :: f in o1 && o1[f] != o0[f] ==> f == page || o1[f] == Pdpt(r, 0) || o1[f] == Pd(r, 0, 0)
  }

  lemma TookIsBecameUser(o0: Owners, o1: Owners, f1: seq<nat>, o2: Owners, f2: seq<nat>, r: nat, page: nat, need: nat)
    requires page in o0 && o1 == o0[page := User(r, USER_PAGE)] && TookTables(o1, f1, o2, f2, r, 0, 0, need)
    ensures BecameUser(o0, o2, r, page) && f2 == f1[Min(need, |f1|)..]
  {
  }

  lemma SameRange(m0: Frames, o0: Owners, m1: Frames, o1: Owners, m2: Frames, r: nat, n: nat, pa: nat, attribute: nat)
    requires SameMap(m0, o0, m1, o1, r) && RangeMapped(m1, m2, r, USER_PAGE, n, pa, attribute)
    ensures RangeMapped(m0, m2, r, USER_PAGE, n, pa, attribute)
  {
    hide PageLeaf, LeafWord, PageOffset;
  }

  /** Giving a user frame that is not mapped back to the allocator. */
  lemma UserDropped(m1: Frames, m2: Frames, o2: Owners, r: nat, page: nat, pa: nat, attribute: nat, link: nat, m3: Frames, o3: Owners)
    requires o2.Keys == m2.Keys && MapsOk(m2, o2) && r in o2 && o2[r].Root? && page in o2
    requires o2[page] == User(r, USER_PAGE)
    requires 0 < |m2[page]| && m3 == Put(m2, page, 0, link) && o3 == o2[page := Free]
    requires RangeMapped(m1, m2, r, USER_PAGE, 0, pa, attribute) && PageLeaf(m1, r, USER_PAGE) == None
    requires forall f :: f in o2 && o2[f].User? && o2[f].root == r ==> f == page
    ensures MapsOk(m3, o3) && Local(m2, o2, m3, o3, r) && UserOk(m3, o3, r) && o3[r].Root?
  {
    RemoveUser(m2, o2, r, page, link, m3, o3);
    SamePageLeaves(m2, m3, r);
    hide TreeOk, PageLeaf, LeafWord, PageOffset, Next, PdAt;
    assert PageLeaf(m2, r, USER_PAGE) == None;
    NoUser(m3, o3, r);
    LocalKeepsMaps(m2, o2, m3, o3, r);
  }

  lemma SameFreed(m0: Frames, o0: Owners, m3: Frames, o3: Owners, o4: Owners, r: nat)
    requires Local(m0, o0, m3, o3, r) && MapFreed(o3, o4, r)
    ensures MapFreed(o0, o4, r)
  {
  }

  /** Overwriting the user frame of r changes what is on the page and nothing else. */
  lemma OverwriteUser(m: Frames, o: Owners, r: nat, p: nat, words: seq<nat>, m': Frames)
    requires MapsOk(m, o) && UsersOk(m, o) && o.Keys == m.Keys && r in o && o[r].Root? && p in o
    requires o[p] == User(r, USER_PAGE)
    requires m' == m[p := words]
    ensures MapsOk(m', o) && UsersOk(m', o) && Local(m, o, m', o, r)
    ensures forall s :: s in o && o[s].Root? ==> SameMap(m, o, m', o, s)
  {
    hide Next, PdAt, Leaf, PageLeaf, TreeOk, MapsOk, UsersOk, SameMap;
    assert o[p := User(r, USER_PAGE)] == o;
    TakeUser(m, o, r, p, words, m', o);
    UserRange(m, o, r);
    SameMapUser(m, m', o, r);
    LocalKeepsUsers(m, o, m', o, r);
    forall s | s in o && o[s].Root?
      ensures SameMap(m, o, m', o, s)
    {
      if s != r {
        RootInOrder(m, o, s);
        TablesSame(m, o, m', o, s);
        SamePageLeaves(m, m', s);
        SameTables(m, m', o, s);
      }
    }
  }

  lemma SameMapUser(m: Frames, m': Frames, o: Owners, r: nat)
    requires SameMap(m, o, m', o, r) && UserOk(m, o, r)
    ensures UserOk(m', o, r)
  {
    hide PageLeaf, P2V, PteAddr;
  }

  lemma SameTables(m: Frames, m': Frames, o: Owners, r: nat)
    requires r in o && o[r].Root?
    requires forall i :: 0 <= i < ENTRIES ==> Next(m', r, i) == Next(m, r, i)
    requires forall i, j :: 0 <= i < ENTRIES && 0 <= j < ENTRIES ==> PdAt(m', r, i, j) == PdAt(m, r, i, j)
    requires forall q :: 0 <= q < PAGES ==> PageLeaf(m', r, q) == PageLeaf(m, r, q)
    ensures SameMap(m, o, m', o, r)
  {
    hide Next, PdAt, PageLeaf;
  }

  /** While another address space r is being built, s and its user page stay as they are. */
  lemma SourceKept(m0: Frames, o0: Owners, m1: Frames, o1: Owners, r: nat, s: nat)
    requires MapsOk(m0, o0) && UsersOk(m0, o0) && Local(m0, o0, m1, o1, r) && s != r && s in o0 && o0[s].Root?
    ensures s in o1 && o1[s].Root? && PdAt(m1, s, 0, 0) == PdAt(m0, s, 0, 0)
    ensures PageLeaf(m1, s, USER_PAGE) == PageLeaf(m0, s, USER_PAGE)
    ensures PageLeaf(m0, s, USER_PAGE).Some? ==>
              var f := P2V(PteAddr(PageLeaf(m0, s, USER_PAGE).value));
              f in o1 && o1[f] == User(s, USER_PAGE) && f in m1 && f in m0 && m1[f] == m0[f]
  {
    RootInOrder(m0, o0, s);
    UserRange(m0, o0, s);
    hide MapsOk, UsersOk;
    TablesSame(m0, o0, m1, o1, s);
    SamePageLeaves(m0, m1, s);
    hide TreeOk, PageLeaf, P2V, PteAddr, PdAt;
  }
}
