/** vm.c and kalloc.c: two-level page tables over physical frames. Memory is a sequence of frames of
    1024 words; the words of a page directory or table are entries: a frame number times 4096, plus
    twelve bits of flags, of which the lowest means present. A virtual address is a page number times
    4096 plus an offset. */
module Vm {
  import opened Common

  const PGSIZE := 4096
  const NENTRIES := 1024
  const VPAGES := 0x10_0000     // pages of the address space
  const UPAGES := 0x8_0000      // pages below KERNBASE
  const KERNBASE := 0x8000_0000
  const PHYSFRAMES := 0xE000    // PHYSTOP
  const KERNLINK := 0x8_0100
  const DEVSPACE := 0xF_E000
  const PTE_P := 1
  const PTE_W := 2
  const PTE_U := 4
  const PTE_PWU := 7

  type Word = x: int | 0 <= x < UINT32
  type Page = p: seq<Word> | |p| == 1024 witness seq(1024, _ => 0)
  type Memory = seq<Page>

  /** What a frame is used for: on the free list at place k, page directory, table i of directory d,
      the user page v of directory d, held by an operation under way, given up by freevm as entry i
      of d (entry 1024: the directory itself), or anything else. */
  datatype Owner = Free(k: nat) | Dir | Table(d: nat, i: nat) | User(d: nat, v: nat) | Held
    | Dying(d: nat, i: nat) | Other

  type Owners = seq<Owner>

  function ZeroPage(): Page {
    seq(1024, _ => 0)
  }

  /** What kfree leaves in a frame: junk, and the link to the frame freed before. */
  function FreedPage(next: Word): (p: Page)
    ensures p[0] == next
  {
    seq(1024, i => if i == 0 then next else 0x0101_0101)
  }

  predicate Present(w: Word) {
    w % 2 == 1
  }

  function Frame(w: Word): nat {
    w / PGSIZE
  }

  function Flags(w: Word): nat {
    w % PGSIZE
  }

  function Entry(f: nat, flags: nat): Word
    requires f < VPAGES && flags < PGSIZE
  {
    f * PGSIZE + flags
  }

  lemma EntryParts(f: nat, flags: nat)
    requires f < VPAGES && flags < PGSIZE
    ensures Frame(Entry(f, flags)) == f && Flags(Entry(f, flags)) == flags
    ensures Present(Entry(f, flags)) <==> flags % 2 == 1
  {
  }

  /** The page table entry of page v, or 0 where there is no table for it. */
  function Pte(m: Memory, d: nat, v: nat): Word
    requires d < |m| && v < VPAGES
  {
    var e := m[d][v / NENTRIES];
    if Present(e) && Frame(e) < |m| then m[Frame(e)][v % NENTRIES] else 0
  }

  /** The hardware's walk for directory frame d: the physical address of va, if both levels let the access
      through. Bit 0 of an entry is present, bit 1 writable, bit 2 user; the rest is a frame number. */
  function Translate(m: Memory, d: nat, va: nat, user: bool, write: bool): Option<nat>
    requires d < |m| && va < 0x1_0000_0000
  {
    var pde := m[d][va / 0x40_0000];
    if pde % 2 == 0 || pde / 4096 >= |m| then None
    else
      var pte := m[pde / 4096][va / 4096 % 1024];
      if || pte % 2 == 0
         || (write && (pde / 2 % 2 == 0 || pte / 2 % 2 == 0))
         || (user && (pde / 4 % 2 == 0 || pte / 4 % 2 == 0)) then None
      else Some(pte / 4096 * 4096 + va % 4096)
  }

  // ----- Every frame has one use -----

  ghost predicate FreeOk(free: seq<nat>, own: Owners) {
    && (forall k :: 0 <= k < |free| ==> free[k] < |own| && own[free[k]] == Free(k))
    && forall f :: 0 <= f < |own| && own[f].Free? ==> own[f].k < |free| && free[own[f].k] == f
  }

  /** The first word of free frame k, and kmem.freelist for k == |free|: the kernel's address of the frame
      freed before it, or 0. */
  function Link(free: seq<nat>, k: nat): nat {
    if 0 < k <= |free| then KERNBASE + free[k - 1] * PGSIZE else 0
  }

  /** The list that starts at head and runs through the frames is free, last freed first. */
  ghost predicate Chain(free: seq<nat>, m: Memory, head: nat) {
    head == Link(free, |free|) && forall k: nat :: k < |free| ==> free[k] < |m| && m[free[k]][0] == Link(free, k)
  }

  /** Frames in use do not matter to the free list. */
  lemma ChainKeeps(free: seq<nat>, own: Owners, m: Memory, head: nat, f: nat, p: Page)
    requires FreeOk(free, own) && Chain(free, m, head) && f < |m| == |own| && !own[f].Free?
    ensures Chain(free, m[f := p], head)
  {
  }

  lemma ChainPush(free: seq<nat>, own: Owners, m: Memory, head: nat, f: nat)
    requires FreeOk(free, own) && Chain(free, m, head) && f < |m| == |own| && !own[f].Free? && head < UINT32
    ensures Chain(free + [f], m[f := FreedPage(head)], KERNBASE + f * PGSIZE)
  {
    var more, m' := free + [f], m[f := FreedPage(head)];
    forall k: nat | k < |more|
      ensures more[k] < |m'| && m'[more[k]][0] == Link(more, k)
    {
      assert k < |free| ==> m[free[k]][0] == Link(free, k) == Link(more, k);
    }
  }

  lemma ChainPop(free: seq<nat>, own: Owners, m: Memory, head: nat)
    requires FreeOk(free, own) && Chain(free, m, head) && |m| == |own|
    ensures head == 0 <==> free == []
    ensures free != [] ==>
              var f := free[|free| - 1];
              && f < |m| && head == KERNBASE + f * PGSIZE && Chain(free[..|free| - 1], m, m[f][0])
  {
    if free != [] {
      var less := free[..|free| - 1];
      assert m[free[|free| - 1]][0] == Link(free, |less|) == Link(less, |less|);
      forall k: nat | k < |less|
        ensures less[k] < |m| && m[less[k]][0] == Link(less, k)
      {
        assert m[free[k]][0] == Link(free, k) == Link(less, k);
      }
    }
  }

  ghost predicate PdeOk(m: Memory, own: Owners, d: nat, i: nat)
    requires |m| == |own| && d < |m| && i < NENTRIES
  {
    Present(m[d][i]) ==>
      Frame(m[d][i]) < |own| && own[Frame(m[d][i])] == Table(d, i) && Flags(m[d][i]) == PTE_P + PTE_W + PTE_U
  }

  ghost predicate TableOk(m: Memory, own: Owners, f: nat)
    requires |m| == |own| && f < |m|
  {
    own[f].Table? ==>
      && own[f].d < |own| && own[own[f].d] == Dir && own[f].i < NENTRIES
      && Present(m[own[f].d][own[f].i]) && Frame(m[own[f].d][own[f].i]) == f
  }

  ghost predicate PteOk(m: Memory, own: Owners, d: nat, v: nat)
    requires |m| == |own| && d < |m| && v < UPAGES
  {
    Present(Pte(m, d, v)) ==> Frame(Pte(m, d, v)) < |own| && own[Frame(Pte(m, d, v))] == User(d, v)
  }

  ghost predicate UserOk(m: Memory, own: Owners, f: nat)
    requires |m| == |own| && f < |m|
  {
    own[f].User? ==>
      && own[f].d < |own| && own[own[f].d] == Dir && own[f].v < UPAGES
      && Present(Pte(m, own[f].d, own[f].v)) && Frame(Pte(m, own[f].d, own[f].v)) == f
  }

  /** Directory and table entries that are present point to the frames that say so, and conversely. */
  ghost predicate TablesOk(m: Memory, own: Owners) {
    && |m| == |own|
    && (forall d: nat, i: nat :: d < |own| && own[d] == Dir && i < NENTRIES ==> PdeOk(m, own, d, i))
    && forall f: nat :: f < |own| ==> TableOk(m, own, f)
  }

  /** The same for the user part of the page tables. */
  ghost predicate UsersOk(m: Memory, own: Owners) {
    && |m| == |own|
    && (forall d: nat, v: nat :: d < |own| && own[d] == Dir && v < UPAGES ==> PteOk(m, own, d, v))
    && forall f: nat :: f < |own| ==> UserOk(m, own, f)
  }

  /** Frames below first hold the kernel and are never allocated. */
  ghost predicate KernelOk(own: Owners, first: nat) {
    0 < first <= |own| && forall f :: 0 <= f < first ==> own[f] == Other
  }

  ghost predicate Inv(free: seq<nat>, m: Memory, own: Owners, first: nat) {
    FreeOk(free, own) && TablesOk(m, own) && UsersOk(m, own) && KernelOk(own, first)
  }

  // ----- One entry or one frame changes -----

  /** The memory after an entry of an existing table is written. */
  function SetPte(m: Memory, d: nat, v: nat, w: Word): Memory
    requires d < |m| && v < VPAGES && Frame(m[d][v / NENTRIES]) < |m|
  {
    var t := Frame(m[d][v / NENTRIES]);
    m[t := m[t][v % NENTRIES := w]]
  }

  lemma Split(v: nat, u: nat)
    ensures v / NENTRIES == u / NENTRIES && v % NENTRIES == u % NENTRIES ==> v == u
    ensures v < VPAGES ==> v / NENTRIES < NENTRIES
  {
  }

  lemma SetPteAt(m: Memory, own: Owners, d: nat, v: nat, w: Word, e: nat, u: nat)
    requires TablesOk(m, own) && d < |m| && own[d] == Dir && v < VPAGES && Present(m[d][v / NENTRIES])
    requires e < |m| && own[e] == Dir && u < VPAGES
    ensures Frame(m[d][v / NENTRIES]) < |m| && own[Frame(m[d][v / NENTRIES])] == Table(d, v / NENTRIES)
    ensures |SetPte(m, d, v, w)| == |m| && SetPte(m, d, v, w)[e] == m[e]
    ensures Pte(SetPte(m, d, v, w), e, u) == if e == d && u == v then w else Pte(m, e, u)
  {
    Split(v, u);
    assert PdeOk(m, own, d, v / NENTRIES) && PdeOk(m, own, e, u / NENTRIES);
  }

  /** Frames that are no directory and no table do not matter to any entry. */
  lemma WriteAt(m: Memory, own: Owners, f: nat, p: Page, e: nat, u: nat)
    requires TablesOk(m, own) && f < |m| && own[f] != Dir && !own[f].Table?
    requires e < |m| && own[e] == Dir && u < VPAGES
    ensures m[f := p][e] == m[e] && Pte(m[f := p], e, u) == Pte(m, e, u)
  {
    Split(u, u);
    assert PdeOk(m, own, e, u / NENTRIES);
  }

  /** The memory after t becomes table i of d. */
  function Install(m: Memory, d: nat, i: nat, t: nat): Memory
    requires d < |m| && i < NENTRIES && t < |m| && t < VPAGES
  {
    m[t := ZeroPage()][d := m[d][i := Entry(t, PTE_P + PTE_W + PTE_U)]]
  }

  lemma InstallAt(m: Memory, own: Owners, d: nat, i: nat, t: nat, e: nat, u: nat)
    requires TablesOk(m, own) && d < |m| && own[d] == Dir && i < NENTRIES && !Present(m[d][i])
    requires t < |m| && t < VPAGES && own[t].Held?
    requires e < |m| && own[e] == Dir && u < VPAGES
    ensures |Install(m, d, i, t)| == |m|
    ensures Install(m, d, i, t)[e] == if e == d then m[d][i := Entry(t, PTE_P + PTE_W + PTE_U)] else m[e]
    ensures Pte(Install(m, d, i, t), e, u) == Pte(m, e, u)
  {
    EntryParts(t, PTE_P + PTE_W + PTE_U);
    Split(u, u);
    assert PdeOk(m, own, e, u / NENTRIES);
  }

  // ----- Each kind of step keeps the uses of frames right -----

  /** In no structure that the invariant speaks of, but for the free list. */
  predicate Loose(o: Owner) {
    o.Free? || o.Held? || o.Dying? || o.Other?
  }

  ghost predicate MapsOk(m: Memory, own: Owners) {
    TablesOk(m, own) && UsersOk(m, own)
  }

  lemma RelabelOk(m: Memory, own: Owners, f: nat, o: Owner)
    requires MapsOk(m, own) && f < |own| && Loose(own[f]) && Loose(o)
    ensures MapsOk(m, own[f := o])
  {
    var own' := own[f := o];
    forall d: nat, i: nat | d < |own'| && own'[d] == Dir && i < NENTRIES
      ensures PdeOk(m, own', d, i)
    {
      assert PdeOk(m, own, d, i);
    }
    forall x: nat | x < |own'|
      ensures TableOk(m, own', x) && UserOk(m, own', x)
    {
      assert TableOk(m, own, x) && UserOk(m, own, x);
    }
    forall d: nat, v: nat | d < |own'| && own'[d] == Dir && v < UPAGES
      ensures PteOk(m, own', d, v)
    {
      assert PteOk(m, own, d, v);
    }
  }

  lemma WriteOk(m: Memory, own: Owners, f: nat, p: Page)
    requires MapsOk(m, own) && f < |own| && own[f] != Dir && !own[f].Table?
    ensures MapsOk(m[f := p], own)
  {
    var m' := m[f := p];
    forall d: nat, i: nat | d < |own| && own[d] == Dir && i < NENTRIES
      ensures PdeOk(m', own, d, i)
    {
      assert PdeOk(m, own, d, i);
    }
    forall x: nat | x < |own|
      ensures TableOk(m', own, x) && UserOk(m', own, x)
    {
      assert TableOk(m, own, x) && UserOk(m, own, x);
      if own[x].User? {
        WriteAt(m, own, f, p, own[x].d, own[x].v);
      }
    }
    forall d: nat, v: nat | d < |own| && own[d] == Dir && v < UPAGES
      ensures PteOk(m', own, d, v)
    {
      assert PteOk(m, own, d, v);
      WriteAt(m, own, f, p, d, v);
    }
  }

  /** Directories and which tables they have are as before. */
  lemma SetPteTables(m: Memory, own: Owners, d: nat, v: nat, w: Word, own': Owners)
    requires TablesOk(m, own) && d < |m| && own[d] == Dir && v < VPAGES && Present(m[d][v / NENTRIES])
    requires |own'| == |own| && forall f :: 0 <= f < |own| ==>
      own'[f] == own[f] || (!own[f].Table? && !own'[f].Table? && own[f] != Dir && own'[f] != Dir)
    ensures Frame(m[d][v / NENTRIES]) < |m| && TablesOk(SetPte(m, d, v, w), own')
  {
    SetPteAt(m, own, d, v, w, d, v);
    var m' := SetPte(m, d, v, w);
    forall e: nat, i: nat | e < |own'| && own'[e] == Dir && i < NENTRIES
      ensures PdeOk(m', own', e, i)
    {
      assert PdeOk(m, own, e, i);
      SetPteAt(m, own, d, v, w, e, 0);
    }
    forall x: nat | x < |own'|
      ensures TableOk(m', own', x)
    {
      assert TableOk(m, own, x);
      if own[x].Table? {
        SetPteAt(m, own, d, v, w, own[x].d, 0);
      }
    }
  }

  lemma MapOk(m: Memory, own: Owners, d: nat, v: nat, w: Word)
    requires MapsOk(m, own) && d < |m| && own[d] == Dir && v < UPAGES && Present(m[d][v / NENTRIES])
    requires !Present(Pte(m, d, v)) && Present(w) && Frame(w) < |own| && Loose(own[Frame(w)])
    ensures Frame(m[d][v / NENTRIES]) < |m| && MapsOk(SetPte(m, d, v, w), own[Frame(w) := User(d, v)])
  {
    var f, own' := Frame(w), own[Frame(w) := User(d, v)];
    SetPteTables(m, own, d, v, w, own');
    var m' := SetPte(m, d, v, w);
    forall x: nat | x < |own'|
      ensures UserOk(m', own', x)
    {
      assert UserOk(m, own, x);
      if own'[x].User? {
        SetPteAt(m, own, d, v, w, own'[x].d, own'[x].v);
      }
    }
    forall e: nat, u: nat | e < |own'| && own'[e] == Dir && u < UPAGES
      ensures PteOk(m', own', e, u)
    {
      assert PteOk(m, own, e, u);
      SetPteAt(m, own, d, v, w, e, u);
    }
  }

  lemma UnmapOk(m: Memory, own: Owners, d: nat, v: nat, o: Owner)
    requires MapsOk(m, own) && d < |m| && own[d] == Dir && v < UPAGES && Present(m[d][v / NENTRIES])
    requires Present(Pte(m, d, v)) && Loose(o)
    ensures Frame(m[d][v / NENTRIES]) < |m| && Frame(Pte(m, d, v)) < |own| && own[Frame(Pte(m, d, v))] == User(d, v)
    ensures MapsOk(SetPte(m, d, v, 0), own[Frame(Pte(m, d, v)) := o])
  {
    assert PteOk(m, own, d, v);
    var own' := own[Frame(Pte(m, d, v)) := o];
    SetPteTables(m, own, d, v, 0, own');
    var m' := SetPte(m, d, v, 0);
    forall x: nat | x < |own'|
      ensures UserOk(m', own', x)
    {
      assert UserOk(m, own, x);
      if own'[x].User? {
        SetPteAt(m, own, d, v, 0, own'[x].d, own'[x].v);
      }
    }
    forall e: nat, u: nat | e < |own'| && own'[e] == Dir && u < UPAGES
      ensures PteOk(m', own', e, u)
    {
      assert PteOk(m, own, e, u);
      SetPteAt(m, own, d, v, 0, e, u);
    }
  }

  /** A kernel page: its frame is not owned by the mapping. */
  lemma KernelMapOk(m: Memory, own: Owners, d: nat, v: nat, w: Word)
    requires MapsOk(m, own) && d < |m| && own[d] == Dir && UPAGES <= v < VPAGES && Present(m[d][v / NENTRIES])
    ensures Frame(m[d][v / NENTRIES]) < |m| && MapsOk(SetPte(m, d, v, w), own)
  {
    SetPteTables(m, own, d, v, w, own);
    var m' := SetPte(m, d, v, w);
    forall x: nat | x < |own|
      ensures UserOk(m', own, x)
    {
      assert UserOk(m, own, x);
      if own[x].User? {
        SetPteAt(m, own, d, v, w, own[x].d, own[x].v);
      }
    }
    forall e: nat, u: nat | e < |own| && own[e] == Dir && u < UPAGES
      ensures PteOk(m', own, e, u)
    {
      assert PteOk(m, own, e, u);
      SetPteAt(m, own, d, v, w, e, u);
    }
  }

  lemma InstallOk(m: Memory, own: Owners, d: nat, i: nat, t: nat)
    requires MapsOk(m, own) && d < |m| && own[d] == Dir && i < NENTRIES && !Present(m[d][i])
    requires t < |m| && t < VPAGES && own[t].Held?
    ensures MapsOk(Install(m, d, i, t), own[t := Table(d, i)])
  {
    var m', own' := Install(m, d, i, t), own[t := Table(d, i)];
    EntryParts(t, PTE_P + PTE_W + PTE_U);
    InstallAt(m, own, d, i, t, d, 0);
    forall e: nat, j: nat | e < |own'| && own'[e] == Dir && j < NENTRIES
      ensures PdeOk(m', own', e, j)
    {
      assert PdeOk(m, own, e, j);
      InstallAt(m, own, d, i, t, e, 0);
    }
    forall x: nat | x < |own'|
      ensures TableOk(m', own', x) && UserOk(m', own', x)
    {
      assert TableOk(m, own, x) && UserOk(m, own, x);
      if own[x].Table? {
        InstallAt(m, own, d, i, t, own[x].d, 0);
      }
      if own[x].User? {
        InstallAt(m, own, d, i, t, own[x].d, own[x].v);
      }
    }
    forall e: nat, u: nat | e < |own'| && own'[e] == Dir && u < UPAGES
      ensures PteOk(m', own', e, u)
    {
      assert PteOk(m, own, e, u);
      InstallAt(m, own, d, i, t, e, u);
    }
  }

  /** A new directory, all of whose entries are absent. */
  lemma DirOk(m: Memory, own: Owners, f: nat)
    requires MapsOk(m, own) && f < |own| && Loose(own[f]) && m[f] == ZeroPage()
    ensures MapsOk(m, own[f := Dir])
    ensures forall v: nat :: v < VPAGES ==> Pte(m, f, v) == 0
  {
    var own' := own[f := Dir];
    forall d: nat, i: nat | d < |own'| && own'[d] == Dir && i < NENTRIES
      ensures PdeOk(m, own', d, i)
    {
      assert d != f ==> PdeOk(m, own, d, i);
    }
    forall x: nat | x < |own'|
      ensures TableOk(m, own', x) && UserOk(m, own', x)
    {
      assert TableOk(m, own, x) && UserOk(m, own, x);
    }
    forall d: nat, v: nat | d < |own'| && own'[d] == Dir && v < UPAGES
      ensures PteOk(m, own', d, v)
    {
      Split(v, v);
      assert d != f ==> PteOk(m, own, d, v);
    }
  }

  /** freevm, once no user page is left: the directory and its tables leave the structure. */
  function Abandoned(own: Owners, d: nat): Owners {
    seq(|own|, f requires 0 <= f < |own| =>
      if f == d then Dying(d, NENTRIES)
      else if own[f].Table? && own[f].d == d then Dying(d, own[f].i) else own[f])
  }

  lemma AbandonOk(m: Memory, own: Owners, d: nat)
    requires MapsOk(m, own) && d < |own| && own[d] == Dir
    requires forall f :: 0 <= f < |own| ==> !(own[f].User? && own[f].d == d)
    ensures MapsOk(m, Abandoned(own, d))
    ensures forall i: nat :: i < NENTRIES && Present(m[d][i]) ==>
              Frame(m[d][i]) < |own| && own[Frame(m[d][i])] == Table(d, i)
  {
    var own' := Abandoned(own, d);
    forall i: nat | i < NENTRIES && Present(m[d][i])
      ensures Frame(m[d][i]) < |own| && own[Frame(m[d][i])] == Table(d, i)
    {
      assert PdeOk(m, own, d, i);
    }
    forall e: nat, i: nat | e < |own'| && own'[e] == Dir && i < NENTRIES
      ensures PdeOk(m, own', e, i)
    {
      assert PdeOk(m, own, e, i);
    }
    forall x: nat | x < |own'|
      ensures TableOk(m, own', x) && UserOk(m, own', x)
    {
      assert TableOk(m, own, x) && UserOk(m, own, x);
    }
    forall e: nat, v: nat | e < |own'| && own'[e] == Dir && v < UPAGES
      ensures PteOk(m, own', e, v)
    {
      assert PteOk(m, own, e, v);
    }
  }

  // ----- What an operation on one directory may change -----

  predicate Mine(o: Owner, d: nat, lo: nat, hi: nat) {
    o.Free? || o.Held? || (o.Table? && o.d == d) || (o.User? && o.d == d && lo <= o.v < hi)
  }

  /** Only frames that are free, held, tables of d or user pages lo..hi of d change their use or their
      contents, and only those pages of d change their entry. */
  ghost predicate Stable(d: nat, lo: nat, hi: nat, m: Memory, own: Owners, m': Memory, own': Owners) {
    && |m| == |own| == |m'| == |own'|
    && (forall f: nat :: f < |own| ==> own'[f] == own[f] || (Mine(own[f], d, lo, hi) && Mine(own'[f], d, lo, hi)))
    && (forall f: nat :: f < |own| && f != d && !Mine(own[f], d, lo, hi) ==> m'[f] == m[f])
    && forall e: nat, v: nat :: e < |own| && own[e] == Dir && v < VPAGES && !(e == d && lo <= v < hi) ==>
         Pte(m', e, v) == Pte(m, e, v)
  }

  lemma StableSelf(d: nat, lo: nat, hi: nat, m: Memory, own: Owners)
    requires |m| == |own|
    ensures Stable(d, lo, hi, m, own, m, own)
  {
  }

  lemma StableThen(d: nat, lo: nat, hi: nat, m: Memory, own: Owners, m1: Memory, own1: Owners, m2: Memory, own2: Owners)
    requires Stable(d, lo, hi, m, own, m1, own1) && Stable(d, lo, hi, m1, own1, m2, own2)
    ensures Stable(d, lo, hi, m, own, m2, own2)
  {
    forall e: nat, v: nat | e < |own| && own[e] == Dir && v < VPAGES && !(e == d && lo <= v < hi)
      ensures Pte(m2, e, v) == Pte(m, e, v)
    {
      assert own1[e] == Dir;
      assert Pte(m1, e, v) == Pte(m, e, v);
    }
  }

  lemma StableWiden(d: nat, lo: nat, hi: nat, lo': nat, hi': nat, m: Memory, own: Owners, m1: Memory, own1: Owners)
    requires Stable(d, lo, hi, m, own, m1, own1) && (hi <= lo || (lo' <= lo && hi <= hi'))
    ensures Stable(d, lo', hi', m, own, m1, own1)
  {
  }

  /** No frame is held that was not held before, and conversely. */
  ghost predicate HeldSame(own: Owners, own': Owners) {
    |own'| == |own| && forall f: nat :: f < |own| ==> (own'[f].Held? <==> own[f].Held?)
  }

  /** Frame f lies within the bytes vstart..vend. */
  predicate Whole(f: nat, vstart: nat, vend: nat) {
    vstart <= f * PGSIZE && (f + 1) * PGSIZE <= vend
  }

  lemma TableFrame(m: Memory, own: Owners, first: nat, d: nat, i: nat)
    requires TablesOk(m, own) && KernelOk(own, first) && d < |own| && own[d] == Dir && i < NENTRIES && Present(m[d][i])
    ensures 0 < Frame(m[d][i]) < |own| && own[Frame(m[d][i])] == Table(d, i) && Frame(m[d][i]) != d
    ensures m[d][i] == Frame(m[d][i]) * 4096 + PTE_P + PTE_W + PTE_U
  {
    assert PdeOk(m, own, d, i);
  }

  lemma InstallStable(m: Memory, own: Owners, d: nat, i: nat, t: nat)
    requires t < |m| == |own| && t < VPAGES && own[t].Free?
    requires TablesOk(m, own[t := Held]) && d < |m| && own[d] == Dir && i < NENTRIES && !Present(m[d][i])
    ensures Stable(d, 0, 0, m, own, Install(m, d, i, t), own[t := Table(d, i)])
  {
    var m' := Install(m, d, i, t);
    forall e: nat, v: nat | e < |own| && own[e] == Dir && v < VPAGES
      ensures Pte(m', e, v) == Pte(m, e, v)
    {
      InstallAt(m, own[t := Held], d, i, t, e, v);
    }
  }

  /** How many pages va..va+size touches. */
  function PagesIn(va: nat, size: nat): nat
    requires size > 0
  {
    (va + size - 1) / PGSIZE - va / PGSIZE + 1
  }

  /** How many page tables va..va+size needs. */
  function TablesIn(va: nat, size: nat): nat
    requires size > 0
  {
    (va + size - 1) / PGSIZE / NENTRIES - va / PGSIZE / NENTRIES + 1
  }

  /** The flags of an entry that mappages writes. */
  function WithP(perm: nat): nat {
    if perm % 2 == 1 then perm else perm + PTE_P
  }

  /** Pages v0.. of d, k of them, map to the frames from f0 on. */
  ghost predicate MappedTo(m: Memory, d: nat, v0: nat, k: nat, f0: nat, perm: nat) {
    && d < |m| && v0 + k <= VPAGES && f0 + k <= VPAGES && perm < PGSIZE
    && forall v: nat :: v0 <= v < v0 + k ==> Pte(m, d, v) == Entry(f0 + v - v0, WithP(perm))
  }

  /** A user page needs a held frame. */
  ghost predicate Supply(own: Owners, v0: nat, f0: nat, k: nat) {
    v0 + k < UPAGES ==> f0 + k < |own| && own[f0 + k].Held?
  }

  ghost predicate Supplied(own: Owners, v0: nat, n: nat, f0: nat) {
    forall k: nat :: k < n ==> Supply(own, v0, f0, k)
  }

  /** Of the held frames, those that pages v0.. of d map have become those pages' frames. */
  ghost predicate Taken(own: Owners, own': Owners, d: nat, v0: nat, k: nat, f0: nat) {
    |own'| == |own| && forall f: nat :: f < |own| ==>
      if !own[f].Held? then !own'[f].Held?
      else own'[f] == if f0 <= f < f0 + k && v0 + f - f0 < UPAGES then User(d, v0 + f - f0) else Held
  }

  ghost predicate HeldContents(m: Memory, own: Owners, m': Memory) {
    |m'| == |m| == |own| && forall f: nat :: f < |own| && own[f].Held? ==> m'[f] == m[f]
  }

  lemma WalkSame(d: nat, v: nat, m: Memory, own: Owners, m': Memory, own': Owners)
    requires Stable(d, 0, 0, m, own, m', own') && d < |own| && own[d] == Dir && v < VPAGES
    ensures Pte(m', d, v) == Pte(m, d, v)
  {
  }

  lemma SetStable(m: Memory, own: Owners, d: nat, v: nat, w: Word, own': Owners)
    requires TablesOk(m, own) && d < |m| && own[d] == Dir && v < VPAGES && Present(m[d][v / NENTRIES])
    requires |own'| == |own| && forall f: nat :: f < |own| ==>
               own'[f] == own[f] || (Mine(own[f], d, v, v + 1) && Mine(own'[f], d, v, v + 1))
    ensures Frame(m[d][v / NENTRIES]) < |m| && Stable(d, v, v + 1, m, own, SetPte(m, d, v, w), own')
  {
    SetPteAt(m, own, d, v, w, d, v);
    forall e: nat, u: nat | e < |own| && own[e] == Dir && u < VPAGES && !(e == d && v <= u < v + 1)
      ensures Pte(SetPte(m, d, v, w), e, u) == Pte(m, e, u)
    {
      SetPteAt(m, own, d, v, w, e, u);
    }
  }

  /** What the table holds after a turn of mappages's loop. */
  lemma MapStep(m1: Memory, own1: Owners, d: nat, v: nat, f: nat, perm: nat, own2: Owners)
    requires MapsOk(m1, own1) && d < |m1| && own1[d] == Dir && v < VPAGES && f < VPAGES && perm < PGSIZE
    requires Present(m1[d][v / NENTRIES]) && !Present(Pte(m1, d, v)) && (v < UPAGES ==> f < |own1| && own1[f].Held?)
    requires own2 == if v < UPAGES then own1[f := User(d, v)] else own1
    ensures Frame(m1[d][v / NENTRIES]) < |m1|
    ensures var m2 := SetPte(m1, d, v, Entry(f, WithP(perm)));
            MapsOk(m2, own2) && MappedTo(m2, d, v, 1, f, perm) && own2[d] == Dir && m2[d] == m1[d]
  {
    var w := Entry(f, WithP(perm));
    EntryParts(f, WithP(perm));
    Split(v, v);
    SetPteAt(m1, own1, d, v, w, d, v);
    OneMapped(SetPte(m1, d, v, w), d, v, f, perm);
    hide TablesOk, UsersOk, Entry, MappedTo;
    if v < UPAGES {
      MapOk(m1, own1, d, v, w);
    } else {
      KernelMapOk(m1, own1, d, v, w);
    }
  }

  /** And what it leaves alone. */
  lemma MapStepFrame(m0: Memory, own0: Owners, m1: Memory, own1: Owners, d: nat, v: nat, f: nat, w: Word, own2: Owners)
    requires TablesOk(m1, own1) && Stable(d, 0, 0, m0, own0, m1, own1) && HeldContents(m0, own0, m1)
    requires d < |own0| && own0[d] == Dir && own1[d] == Dir && v < VPAGES
    requires own1 == own0 || exists t: nat :: t < |own0| && own0[t].Free? && own1 == own0[t := Table(d, v / NENTRIES)]
    requires Present(m1[d][v / NENTRIES]) && (v < UPAGES ==> f < |own0| && own0[f].Held?)
    requires own2 == if v < UPAGES then own1[f := User(d, v)] else own1
    ensures Frame(m1[d][v / NENTRIES]) < |m1|
    ensures var m2 := SetPte(m1, d, v, w);
            Stable(d, v, v + 1, m0, own0, m2, own2) && Taken(own0, own2, d, v, 1, f) && HeldContents(m0, own0, m2)
  {
    SetPteAt(m1, own1, d, v, w, d, v);
    hide TablesOk, Stable, Taken, SetPte, HeldContents, Pte;
    var m2 := SetPte(m1, d, v, w);
    SetStable(m1, own1, d, v, w, own2);
    MapTaken(own0, own1, d, v, f, own2);
    StableWiden(d, 0, 0, v, v + 1, m0, own0, m1, own1);
    StableThen(d, v, v + 1, m0, own0, m1, own1, m2, own2);
    SetPteHeld(m0, own0, m1, own1, d, v, w);
  }

  lemma SetPteChain(free: seq<nat>, own: Owners, m: Memory, head: nat, d: nat, v: nat, w: Word)
    requires FreeOk(free, own) && Chain(free, m, head) && TablesOk(m, own)
    requires d < |m| && own[d] == Dir && v < VPAGES && Present(m[d][v / NENTRIES])
    ensures Frame(m[d][v / NENTRIES]) < |m| && Chain(free, SetPte(m, d, v, w), head)
  {
    hide Chain;
    SetPteAt(m, own, d, v, w, d, v);
    var t := Frame(m[d][v / NENTRIES]);
    ChainKeeps(free, own, m, head, t, m[t][v % NENTRIES := w]);
  }

  lemma OneMapped(m: Memory, d: nat, v: nat, f: nat, perm: nat)
    requires d < |m| && v < VPAGES && f < VPAGES && perm < PGSIZE && Pte(m, d, v) == Entry(f, WithP(perm))
    ensures MappedTo(m, d, v, 1, f, perm)
  {
  }

  lemma AreMaps(m: Memory, own: Owners)
    ensures MapsOk(m, own) <==> TablesOk(m, own) && UsersOk(m, own)
  {
  }

  lemma HeldUsed(free: seq<nat>, own: Owners, first: nat, f: nat, o: Owner)
    requires FreeOk(free, own) && KernelOk(own, first) && f < |own| && own[f].Held? && !o.Free?
    ensures FreeOk(free, own[f := o]) && KernelOk(own[f := o], first)
  {
  }

  lemma MapTaken(own0: Owners, own1: Owners, d: nat, v: nat, f: nat, own2: Owners)
    requires own1 == own0 || exists t: nat :: t < |own0| && own0[t].Free? && own1 == own0[t := Table(d, v / NENTRIES)]
    requires v < UPAGES ==> f < |own0| && own0[f].Held?
    requires own2 == if v < UPAGES then own1[f := User(d, v)] else own1
    ensures Taken(own0, own2, d, v, 1, f)
  {
  }

  lemma SetPteHeld(m0: Memory, own0: Owners, m1: Memory, own1: Owners, d: nat, v: nat, w: Word)
    requires HeldContents(m0, own0, m1) && |m1| == |own1| && d < |m1| && v < VPAGES && Frame(m1[d][v / NENTRIES]) < |m1|
    requires own1 == own0 || exists t: nat :: t < |own0| && own0[t].Free? && own1 == own0[t := Table(d, v / NENTRIES)]
    requires own1[Frame(m1[d][v / NENTRIES])].Table?
    ensures HeldContents(m0, own0, SetPte(m1, d, v, w))
  {
  }

  lemma MapNone(d: nat, v0: nat, f0: nat, perm: nat, m: Memory, own: Owners)
    requires |m| == |own| && d < |m| && v0 <= VPAGES && f0 <= VPAGES && perm < PGSIZE
    ensures MappedTo(m, d, v0, 0, f0, perm) && Stable(d, v0, v0, m, own, m, own)
    ensures Taken(own, own, d, v0, 0, f0) && HeldContents(m, own, m)
  {
  }

  lemma MapReady(m0: Memory, own0: Owners, m: Memory, own: Owners, d: nat, v0: nat, n: nat, k: nat, f0: nat)
    requires Supplied(own0, v0, n, f0) && k < n
    requires Stable(d, v0, v0 + k, m0, own0, m, own) && Taken(own0, own, d, v0, k, f0) && v0 + k < VPAGES
    requires d < |own0| && own0[d] == Dir
    ensures Pte(m, d, v0 + k) == Pte(m0, d, v0 + k)
    ensures v0 + k < UPAGES ==> f0 + k < |own| && own[f0 + k].Held?
  {
    assert Supply(own0, v0, f0, k);
  }

  lemma MapMore(m0: Memory, own0: Owners, m1: Memory, own1: Owners, m2: Memory, own2: Owners, d: nat, v0: nat, k: nat,
      f0: nat, perm: nat)
    requires d < |own0| && own0[d] == Dir
    requires MappedTo(m1, d, v0, k, f0, perm) && Stable(d, v0, v0 + k, m0, own0, m1, own1)
    requires Taken(own0, own1, d, v0, k, f0) && HeldContents(m0, own0, m1)
    requires MappedTo(m2, d, v0 + k, 1, f0 + k, perm) && Stable(d, v0 + k, v0 + k + 1, m1, own1, m2, own2)
    requires Taken(own1, own2, d, v0 + k, 1, f0 + k) && HeldContents(m1, own1, m2)
    ensures MappedTo(m2, d, v0, k + 1, f0, perm) && Stable(d, v0, v0 + k + 1, m0, own0, m2, own2)
    ensures Taken(own0, own2, d, v0, k + 1, f0) && HeldContents(m0, own0, m2)
  {
    StableWiden(d, v0, v0 + k, v0, v0 + k + 1, m0, own0, m1, own1);
    StableWiden(d, v0 + k, v0 + k + 1, v0, v0 + k + 1, m1, own1, m2, own2);
    StableThen(d, v0, v0 + k + 1, m0, own0, m1, own1, m2, own2);
    assert MappedTo(m2, d, v0, k + 1, f0, perm) by {
      forall v: nat | v0 <= v < v0 + k + 1
        ensures Pte(m2, d, v) == Entry(f0 + v - v0, WithP(perm))
      {
        assert v < v0 + k ==> Pte(m2, d, v) == Pte(m1, d, v);
      }
    }
    assert HeldContents(m0, own0, m2) && Taken(own0, own2, d, v0, k + 1, f0) by { hide MappedTo; }
  }

  lemma MapFailed(m0: Memory, own0: Owners, m1: Memory, own1: Owners, m2: Memory, own2: Owners, d: nat, v0: nat, k: nat,
      f0: nat, perm: nat)
    requires m2 == m1 && own2 == own1
    requires MappedTo(m1, d, v0, k, f0, perm) && Stable(d, v0, v0 + k, m0, own0, m1, own1)
    ensures MappedTo(m2, d, v0, k, f0, perm) && Stable(d, v0, v0 + k, m0, own0, m2, own2)
  {
  }

  /** How many pages hold sz bytes. */
  function PagesTo(sz: nat): nat {
    (sz + PGSIZE - 1) / PGSIZE
  }

  ghost predicate Unmapped(m: Memory, d: nat, lo: nat, hi: nat) {
    d < |m| && hi <= VPAGES && forall v: nat :: lo <= v < hi ==> !Present(Pte(m, d, v))
  }

  lemma UnmapNone(d: nat, lo: nat, hi: nat, m: Memory, own: Owners)
    requires |m| == |own| && d < |m|
    ensures lo <= VPAGES ==> Unmapped(m, d, lo, lo)
    ensures Stable(d, lo, hi, m, own, m, own) && HeldSame(own, own) && HeldContents(m, own, m)
  {
  }

  /** No table: none of the pages up to the next multiple of 4 MB is mapped. */
  lemma SkipTable(m: Memory, d: nat, lo: nat, a: nat, hi: nat)
    requires Unmapped(m, d, lo, if a < hi then a else hi) && a < UPAGES && a < hi && hi <= UPAGES
    requires a / NENTRIES < NENTRIES && !Present(m[d][a / NENTRIES])
    ensures var b := (a / NENTRIES + 1) * NENTRIES; a < b <= UPAGES && Unmapped(m, d, lo, if b < hi then b else hi)
  {
    var b := (a / NENTRIES + 1) * NENTRIES;
    forall v: nat | a <= v < b && v < hi
      ensures !Present(Pte(m, d, v))
    {
      assert v / NENTRIES == a / NENTRIES;
    }
  }

  lemma NotThere(m: Memory, d: nat, lo: nat, a: nat, hi: nat, t: nat)
    requires Unmapped(m, d, lo, if a < hi then a else hi) && a < hi <= UPAGES
    requires a / NENTRIES < NENTRIES && t == Frame(m[d][a / NENTRIES]) < |m| && !Present(m[t][a % NENTRIES])
    ensures Unmapped(m, d, lo, a + 1)
  {
  }

  lemma NotKernel(own: Owners, first: nat, f: nat)
    requires KernelOk(own, first) && f < |own| && own[f] != Other
    ensures f >= first
  {
  }

  lemma FreeKeeps(free: seq<nat>, own: Owners, f: nat, o: Owner)
    requires FreeOk(free, own) && f < |own| && !own[f].Free? && !o.Free?
    ensures FreeOk(free, own[f := o])
  {
  }

  /** The whole effect of unmapping page v, whose frame is f. */
  lemma UnmapStep(m: Memory, own: Owners, d: nat, v: nat, f: nat, p: Page,
      o: Owner)
    requires MapsOk(m, own) && d < |m| && own[d] == Dir && v < UPAGES && v / NENTRIES < NENTRIES
    requires Present(m[d][v / NENTRIES]) && Frame(m[d][v / NENTRIES]) < |m| && Present(Pte(m, d, v))
    requires f == Frame(Pte(m, d, v)) && f < |own| && o.Free?
    ensures var m2, own2 := SetPte(m, d, v, 0)[f := p], own[f := o];
            && Stable(d, v, v + 1, m, own, m2, own2) && Pte(m2, d, v) == 0
            && HeldSame(own, own2) && HeldContents(m, own, m2)
  {
    UnmapOk(m, own, d, v, Other);
    SetPteAt(m, own, d, v, 0, d, v);
    var m1, own1, own2 := SetPte(m, d, v, 0), own[f := Other], own[f := o];
    var m2 := m1[f := p];
    WriteAt(m1, own1, f, p, d, v);
    forall e: nat, u: nat | e < |own| && own[e] == Dir && u < VPAGES && !(e == d && u == v)
      ensures Pte(m2, e, u) == Pte(m, e, u)
    {
      SetPteAt(m, own, d, v, 0, e, u);
      WriteAt(m1, own1, f, p, e, u);
    }
  }

  lemma UnmapMore(m0: Memory, own0: Owners, m1: Memory, own1: Owners, m2: Memory, own2: Owners, d: nat, lo: nat, a: nat,
      hi: nat)
    requires d < |own0| && own0[d] == Dir && lo <= a < hi <= UPAGES && Unmapped(m1, d, lo, a)
    requires Stable(d, lo, hi, m0, own0, m1, own1) && HeldSame(own0, own1) && HeldContents(m0, own0, m1)
    requires Stable(d, a, a + 1, m1, own1, m2, own2) && HeldSame(own1, own2) && HeldContents(m1, own1, m2)
    requires Pte(m2, d, a) == 0
    ensures Unmapped(m2, d, lo, a + 1)
    ensures Stable(d, lo, hi, m0, own0, m2, own2) && HeldSame(own0, own2) && HeldContents(m0, own0, m2)
  {
    StableWiden(d, a, a + 1, lo, hi, m1, own1, m2, own2);
    StableThen(d, lo, hi, m0, own0, m1, own1, m2, own2);
    forall v: nat | lo <= v < a + 1
      ensures !Present(Pte(m2, d, v))
    {
      assert v < a ==> Pte(m2, d, v) == Pte(m1, d, v);
    }
  }

  /** The pages of d that are mapped no more have given their frames back. */
  ghost predicate Returned(m0: Memory, m: Memory, own: Owners, d: nat) {
    && |m0| == |m| == |own| && d < |m|
    && forall v: nat :: v < UPAGES && Present(Pte(m0, d, v)) && Pte(m, d, v) != Pte(m0, d, v) ==>
         Frame(Pte(m0, d, v)) < |own| && own[Frame(Pte(m0, d, v))].Free?
  }

  lemma ReturnedMore(m0: Memory, m1: Memory, own1: Owners, m2: Memory, own2: Owners, d: nat, a: nat, f: nat, k: nat)
    requires Returned(m0, m1, own1, d) && own1[d] == Dir && f < |own1| && own2 == own1[f := Free(k)]
    requires Stable(d, a, a + 1, m1, own1, m2, own2) && a < UPAGES && f == Frame(Pte(m1, d, a))
    ensures Returned(m0, m2, own2, d)
  {
    forall v: nat | v < UPAGES && Present(Pte(m0, d, v)) && Pte(m2, d, v) != Pte(m0, d, v)
      ensures Frame(Pte(m0, d, v)) < |own2| && own2[Frame(Pte(m0, d, v))].Free?
    {
      assert v != a ==> Pte(m2, d, v) == Pte(m1, d, v);
    }
  }

  lemma ReturnedNone(m: Memory, own: Owners, d: nat)
    requires |m| == |own| && d < |m|
    ensures Returned(m, m, own, d)
  {
  }

  lemma InFree(free: seq<nat>, own: Owners, f: nat)
    requires FreeOk(free, own) && f < |own|
    ensures f in free <==> own[f].Free?
  {
  }

  lemma FreeIs(free: seq<nat>, m: Memory, own: Owners, first: nat)
    requires Inv(free, m, own, first)
    ensures forall f: nat :: f in free <==> f < |own| && own[f].Free?
  {
  }

  ghost predicate Quiet(own: Owners) {
    forall f: nat :: f < |own| ==> !own[f].Held?
  }

  /** Page v maps to a frame of its own that holds p. */
  ghost predicate NewPage(m: Memory, own: Owners, d: nat, v: nat, p: Page, flags: nat)
    requires |m| == |own|
  {
    && d < |m| && v < VPAGES && Present(Pte(m, d, v)) && Flags(Pte(m, d, v)) == flags
    && Frame(Pte(m, d, v)) < |m| && own[Frame(Pte(m, d, v))] == User(d, v) && m[Frame(Pte(m, d, v))] == p
  }

  lemma LooseStable(d: nat, lo: nat, hi: nat, m: Memory, own: Owners, f: nat, p: Page, o: Owner)
    requires TablesOk(m, own) && f < |own| && (own[f].Free? || own[f].Held?) && (o.Free? || o.Held?)
    ensures Stable(d, lo, hi, m, own, m[f := p], own[f := o])
  {
    forall e: nat, u: nat | e < |own| && own[e] == Dir && u < VPAGES
      ensures Pte(m[f := p], e, u) == Pte(m, e, u)
    {
      WriteAt(m, own, f, p, e, u);
    }
  }

  lemma OneSupplied(own: Owners, v: nat, f: nat)
    requires f < |own| && own[f].Held?
    ensures Supplied(own, v, 1, f)
  {
  }

  lemma OnePage(v: nat, f: nat)
    ensures PagesIn(v * PGSIZE, PGSIZE) == 1 && v * PGSIZE / PGSIZE == v && f * PGSIZE / PGSIZE == f
    ensures f * PGSIZE % PGSIZE == 0 && TablesIn(v * PGSIZE, PGSIZE) == 1
  {
  }

  lemma NewPageIs(m0: Memory, own0: Owners, m1: Memory, own1: Owners, m2: Memory, own2: Owners, d: nat, v: nat, f: nat,
      p: Page, perm: nat)
    requires Quiet(own0) && f < |own0| && own1 == own0[f := Held] && |m0| == |m1| == |own0| && m1[f] == p
    requires Stable(d, v, v + 1, m0, own0, m1, own1) && Stable(d, v, v + 1, m1, own1, m2, own2) && v < UPAGES
    requires Taken(own1, own2, d, v, 1, f) && HeldContents(m1, own1, m2)
    requires MappedTo(m2, d, v, 1, f, perm)
    ensures Quiet(own2) && NewPage(m2, own2, d, v, p, WithP(perm)) && Stable(d, v, v + 1, m0, own0, m2, own2)
  {
    StableThen(d, v, v + 1, m0, own0, m1, own1, m2, own2);
    EntryParts(f, WithP(perm));
    assert own2[f] == User(d, v);
  }

  lemma NewPageNot(m0: Memory, own0: Owners, m1: Memory, own1: Owners, m2: Memory, own2: Owners, d: nat, v: nat, f: nat)
    requires Quiet(own0) && f < |own0| && own1 == own0[f := Held] && |m0| == |m1| == |own0| && v < UPAGES
    requires Stable(d, v, v + 1, m0, own0, m1, own1) && Stable(d, v, v, m1, own1, m2, own2)
    requires Taken(own1, own2, d, v, 0, f) && d < |own1| && own1[d] == Dir && !Present(Pte(m1, d, v))
    ensures own2[f] == Held && Quiet(own2[f := Other]) && Stable(d, v, v + 1, m0, own0, m2, own2)
    ensures !Present(Pte(m2, d, v))
  {
    StableWiden(d, v, v, v, v + 1, m1, own1, m2, own2);
    StableThen(d, v, v + 1, m0, own0, m1, own1, m2, own2);
    assert Pte(m2, d, v) == Pte(m1, d, v);
  }

  /** Pages lo..hi are fresh frames of zeros that the user may read and write. */
  ghost predicate NewPages(m: Memory, own: Owners, d: nat, lo: nat, hi: nat) {
    |m| == |own| && forall v: nat :: lo <= v < hi ==> NewPage(m, own, d, v, ZeroPage(), PTE_PWU)
  }

  lemma NoNewPages(m: Memory, own: Owners, d: nat, lo: nat)
    requires |m| == |own|
    ensures NewPages(m, own, d, lo, lo)
  {
  }

  lemma PageFree(m: Memory, d: nat, a: nat, hi: nat)
    requires Unmapped(m, d, a, hi) && a < hi
    ensures !Present(Pte(m, d, a))
  {
  }

  lemma GrowStep(m0: Memory, own0: Owners, m1: Memory, own1: Owners, m2: Memory, own2: Owners, d: nat, lo: nat, a: nat,
      hi: nat)
    requires Stable(d, lo, hi, m0, own0, m1, own1) && Stable(d, a, a + 1, m1, own1, m2, own2) && lo <= a < hi
    requires d < |own1| && own1[d] == Dir && Unmapped(m1, d, a, hi)
    ensures Stable(d, lo, hi, m0, own0, m2, own2) && Unmapped(m2, d, a + 1, hi)
  {
    StableWiden(d, a, a + 1, lo, hi, m1, own1, m2, own2);
    StableThen(d, lo, hi, m0, own0, m1, own1, m2, own2);
    forall v: nat | a + 1 <= v < hi
      ensures !Present(Pte(m2, d, v))
    {
      assert Pte(m2, d, v) == Pte(m1, d, v);
    }
  }

  lemma MorePages(m1: Memory, own1: Owners, m2: Memory, own2: Owners, d: nat, lo: nat, a: nat)
    requires Stable(d, a, a + 1, m1, own1, m2, own2) && lo <= a < VPAGES && d < |own1| && own1[d] == Dir
    requires NewPages(m1, own1, d, lo, a) && NewPage(m2, own2, d, a, ZeroPage(), PTE_PWU)
    ensures NewPages(m2, own2, d, lo, a + 1)
  {
    forall v: nat | lo <= v < a + 1
      ensures NewPage(m2, own2, d, v, ZeroPage(), PTE_PWU)
    {
      if v < a {
        assert NewPage(m1, own1, d, v, ZeroPage(), PTE_PWU);
        assert Pte(m2, d, v) == Pte(m1, d, v);
      }
    }
  }

  lemma QuietAfter(own: Owners, own': Owners, f: nat)
    requires HeldSame(own, own')
    ensures f == 0 && Quiet(own) ==> Quiet(own')
    ensures f < |own| && own[f].Held? && Quiet(own[f := Other]) ==> own'[f].Held? && Quiet(own'[f := Other])
  {
    if f < |own| && own[f].Held? && Quiet(own[f := Other]) {
      forall x: nat | x < |own| && x != f
        ensures !own'[x].Held?
      {
        assert !own[f := Other][x].Held?;
      }
    }
  }

  /** The frame that mappages could not map goes back to the free list. */
  lemma DropHeld(m0: Memory, own0: Owners, m: Memory, own: Owners, d: nat, lo: nat, hi: nat, f: nat,
      p: Page, o: Owner)
    requires TablesOk(m, own) && Stable(d, lo, hi, m0, own0, m, own) && f < |own| && own[f].Held? && o.Free?
    requires Quiet(own[f := Other]) && d < |own| && own[d] == Dir && Unmapped(m, d, lo, hi)
    ensures Stable(d, lo, hi, m0, own0, m[f := p], own[f := o]) && Quiet(own[f := o])
    ensures Unmapped(m[f := p], d, lo, hi)
  {
    var m', own', quiet := m[f := p], own[f := o], own[f := Other];
    LooseStable(d, lo, hi, m, own, f, p, o);
    StableThen(d, lo, hi, m0, own0, m, own, m', own');
    forall v: nat | lo <= v < hi
      ensures !Present(Pte(m', d, v))
    {
      WriteAt(m, own, f, p, d, v);
    }
    forall x: nat | x < |own|
      ensures !own'[x].Held?
    {
      assert x != f ==> !quiet[x].Held?;
    }
  }

  // ----- freevm -----

  predicate Belongs(o: Owner, d: nat, f: nat) {
    f == d || (o.Table? && o.d == d) || (o.User? && o.d == d)
  }

  /** Exactly the frames of d have become free, and no other frame in use has changed. */
  ghost predicate Released(d: nat, m: Memory, own: Owners, m': Memory, own': Owners) {
    |m'| == |m| == |own| == |own'| && forall f: nat :: f < |own| ==>
      if Belongs(own[f], d, f) || own[f].Free? then own'[f].Free? else own'[f] == own[f] && m'[f] == m[f]
  }

  lemma NoUsersLeft(m: Memory, own: Owners, d: nat)
    requires UsersOk(m, own) && Unmapped(m, d, PagesTo(0), PagesTo(KERNBASE))
    ensures forall f :: 0 <= f < |own| ==> !(own[f].User? && own[f].d == d)
  {
    forall f: nat | f < |own|
      ensures !(own[f].User? && own[f].d == d)
    {
      assert UserOk(m, own, f);
    }
  }

  lemma AbandonFree(free: seq<nat>, own: Owners, d: nat, first: nat)
    requires FreeOk(free, own) && KernelOk(own, first) && d < |own| && own[d] == Dir
    ensures FreeOk(free, Abandoned(own, d)) && KernelOk(Abandoned(own, d), first)
  {
  }

  /** freevm's loop over the directory, before entry i. m and own are from before the tables were
      given up. */
  ghost predicate Giving(d: nat, i: nat, m: Memory, own: Owners, m': Memory, own': Owners) {
    && |m'| == |m| == |own| == |own'| && d < |own| && own[d] == Dir && own'[d] == Dying(d, NENTRIES) && m'[d] == m[d]
    && forall f: nat :: f < |own| && f != d ==>
         if own[f].Table? && own[f].d == d then
           (if own[f].i < i then own'[f].Free? else own'[f] == Dying(d, own[f].i))
         else if own[f].Free? then own'[f].Free?
         else own'[f] == own[f] && m'[f] == m[f]
  }

  lemma GivingStart(m: Memory, own: Owners, d: nat, own': Owners)
    requires |m| == |own| && d < |own| && own[d] == Dir && own' == Abandoned(own, d)
    ensures Giving(d, 0, m, own, m, own')
  {
  }

  lemma GivingAt(d: nat, i: nat, m: Memory, own: Owners, m': Memory, own': Owners, first: nat)
    requires TablesOk(m, own) && KernelOk(own', first) && Giving(d, i, m, own, m', own') && i < NENTRIES
    ensures Present(m'[d][i]) ==>
              first <= Frame(m'[d][i]) < |own'| && own'[Frame(m'[d][i])] == Dying(d, i) && Frame(m'[d][i]) != d
  {
    assert PdeOk(m, own, d, i);
  }

  lemma GivingMore(d: nat, i: nat, m: Memory, own: Owners, m': Memory, own': Owners, p: Page, o: Owner)
    requires TablesOk(m, own) && Giving(d, i, m, own, m', own') && i < NENTRIES && Present(m'[d][i]) && o.Free?
    requires Frame(m'[d][i]) < |own'|
    ensures Giving(d, i + 1, m, own, m'[Frame(m'[d][i]) := p], own'[Frame(m'[d][i]) := o])
  {
    assert PdeOk(m, own, d, i);
    var t := Frame(m'[d][i]);
    forall f: nat | f < |own| && f != t
      ensures own[f].Table? && own[f].d == d ==> own[f].i != i
    {
      assert TableOk(m, own, f);
    }
  }

  lemma GivingSkip(d: nat, i: nat, m: Memory, own: Owners, m': Memory, own': Owners)
    requires TablesOk(m, own) && Giving(d, i, m, own, m', own') && i < NENTRIES && !Present(m'[d][i])
    ensures Giving(d, i + 1, m, own, m', own')
  {
    forall f: nat | f < |own|
      ensures own[f].Table? && own[f].d == d ==> own[f].i != i
    {
      assert TableOk(m, own, f);
    }
  }

  lemma GivingEnd(d: nat, m0: Memory, own0: Owners, m1: Memory, own1: Owners, m2: Memory, own2: Owners, p: Page,
      o: Owner, first: nat)
    requires Stable(d, PagesTo(0), PagesTo(KERNBASE), m0, own0, m1, own1) && HeldSame(own0, own1) && Quiet(own0)
    requires TablesOk(m0, own0) && UsersOk(m0, own0) && TablesOk(m1, own1)
    requires forall f :: 0 <= f < |own1| ==> !(own1[f].User? && own1[f].d == d)
    requires Giving(d, NENTRIES, m1, own1, m2, own2) && o.Free? && KernelOk(own2, first)
    ensures d < |own2| && own2[d] == Dying(d, NENTRIES)
    ensures first <= d && Released(d, m0, own0, m2[d := p], own2[d := o])
  {
    var m', own' := m2[d := p], own2[d := o];
    forall f: nat | f < |own0|
      ensures if Belongs(own0[f], d, f) || own0[f].Free? then own'[f].Free? else own'[f] == own0[f] && m'[f] == m0[f]
    {
      assert TableOk(m1, own1, f) && UserOk(m0, own0, f);
    }
  }

  // ----- setupkvm -----

  /** Frame d has become a directory with tables and user pages of its own, all from the free list. */
  ghost predicate Made(d: nat, m: Memory, own: Owners, m': Memory, own': Owners) {
    && |m| == |own| == |m'| == |own'| && d < |own| && own[d].Free? && own'[d] == Dir
    && forall f: nat :: f < |own| && f != d ==>
         if own[f].Free? then own'[f].Free? || Belongs(own'[f], d, f)
         else own'[f] == own[f] && m'[f] == m[f] && !Belongs(own[f], d, f)
  }

  /** The same frames are free as before, and the others have kept their use and contents. */
  ghost predicate Undone(m: Memory, own: Owners, m': Memory, own': Owners) {
    |m| == |own| == |m'| == |own'| && forall f: nat :: f < |own| ==>
      if own[f].Free? then own'[f].Free? else own'[f] == own[f] && m'[f] == m[f]
  }

  lemma UndoneSelf(m: Memory, own: Owners)
    requires |m| == |own|
    ensures Undone(m, own, m, own)
  {
  }

  lemma MadeUndone(m0: Memory, own0: Owners, m1: Memory, own1: Owners, m2: Memory, own2: Owners, d: nat)
    requires Made(d, m0, own0, m1, own1) && Released(d, m1, own1, m2, own2) && Quiet(own0)
    ensures Undone(m0, own0, m2, own2) && Quiet(own2)
  {
  }

  lemma MadeThen(m0: Memory, own0: Owners, m1: Memory, own1: Owners, m2: Memory, own2: Owners, d: nat, lo: nat, hi: nat)
    requires Made(d, m0, own0, m1, own1) && Stable(d, lo, hi, m1, own1, m2, own2) && Quiet(own0) && Quiet(own2)
    ensures Made(d, m0, own0, m2, own2)
  {
  }

  /** One row of kmap, in bytes. */
  datatype Kmap = Kmap(va: nat, size: nat, pa: nat, perm: nat)

  /** kmap. The last row ends at the top of the address space. */
  function Region(data: nat, k: nat): Kmap
    requires k < 4 && KERNLINK < data < UPAGES + PHYSFRAMES
  {
    if k == 0 then Kmap(KERNBASE, 0x10_0000, 0, PTE_W)
    else if k == 1 then Kmap(KERNLINK * PGSIZE, (data - KERNLINK) * PGSIZE, 0x10_0000, 0)
    else if k == 2 then
      Kmap(data * PGSIZE, (UPAGES + PHYSFRAMES - data) * PGSIZE, (data - UPAGES) * PGSIZE, PTE_W)
    else Kmap(DEVSPACE * PGSIZE, 0x200_0000, DEVSPACE * PGSIZE, PTE_W)
  }

  /** A directory, and at most 66 tables: 1 for the I/O space, 57 for the kernel and memory, 8 for the devices. */
  const KERNEL_FRAMES := 67

  function TablesUpTo(data: nat, k: nat): nat
    requires k <= 4 && KERNLINK < data < UPAGES + PHYSFRAMES
  {
    if k == 0 then 0 else TablesUpTo(data, k - 1) + TablesIn(Region(data, k - 1).va, Region(data, k - 1).size)
  }

  lemma RegionTables(data: nat, k: nat)
    requires k < 4 && KERNLINK < data < UPAGES + PHYSFRAMES
    ensures Region(data, k).size > 0
    ensures var n := TablesIn(Region(data, k).va, Region(data, k).size);
            && n > 0 && (k == 0 ==> n == 1) && (k == 3 ==> n == 8)
            && (k == 1 ==> n == (data - 1) / NENTRIES - 511) && (k == 2 ==> n == 568 - data / NENTRIES)
  {
    RegionPages(data, k);
  }

  lemma TablesBound(data: nat, k: nat)
    requires k <= 4 && KERNLINK < data < UPAGES + PHYSFRAMES
    ensures k < 4 ==>
              && Region(data, k).size > 0
              && TablesUpTo(data, k) + TablesIn(Region(data, k).va, Region(data, k).size) == TablesUpTo(data, k + 1)
    ensures TablesUpTo(data, k) <= TablesUpTo(data, 4) < KERNEL_FRAMES
  {
    hide Region, TablesIn;
    RegionTables(data, 0);
    RegionTables(data, 1);
    RegionTables(data, 2);
    RegionTables(data, 3);
    assert TablesUpTo(data, 1) == 1;
    assert TablesUpTo(data, 2) == 1 + ((data - 1) / NENTRIES - 511);
    assert TablesUpTo(data, 3) == 1 + ((data - 1) / NENTRIES - 511) + (568 - data / NENTRIES);
    assert TablesUpTo(data, 4) == 9 + ((data - 1) / NENTRIES - 511) + (568 - data / NENTRIES);
  }

  /** What the hardware finds for kernel page v after k rows: physical memory from KERNBASE on, with the
      kernel's text read-only, and the devices at their own addresses. */
  function KernelPte(data: nat, k: nat, v: nat): Word
    requires v < VPAGES
  {
    if k > 0 && UPAGES <= v < KERNLINK then Entry(v - UPAGES, PTE_P + PTE_W)
    else if k > 1 && KERNLINK <= v < data then Entry(v - UPAGES, PTE_P)
    else if k > 2 && UPAGES <= data <= v < UPAGES + PHYSFRAMES then Entry(v - UPAGES, PTE_P + PTE_W)
    else if k > 3 && DEVSPACE <= v then Entry(v, PTE_P + PTE_W)
    else 0
  }

  ghost predicate KernelOnly(m: Memory, d: nat, data: nat, k: nat) {
    d < |m| && forall v: nat :: UPAGES <= v < VPAGES ==> Pte(m, d, v) == KernelPte(data, k, v)
  }

  lemma MadeStart(m0: Memory, own0: Owners, m: Memory, own: Owners, d: nat, data: nat, first: nat)
    requires TablesOk(m0, own0) && UsersOk(m0, own0) && d < |m0| && own0[d].Free?
    requires m == m0[d := ZeroPage()] && own == own0[d := Held][d := Dir] && Quiet(own0)
    requires forall v: nat :: v < VPAGES ==> Pte(m, d, v) == 0
    ensures Made(d, m0, own0, m, own) && KernelOnly(m, d, data, 0) && Unmapped(m, d, 0, UPAGES) && Quiet(own)
  {
    assert own == own0[d := Dir];
    forall f: nat | f < |own0| && !own0[f].Free?
      ensures !Belongs(own0[f], d, f)
    {
      assert TableOk(m0, own0, f) && UserOk(m0, own0, f);
    }
    assert forall v: nat :: v < UPAGES ==> !Present(Pte(m, d, v));
  }

  /** The pages of row k, and the frame of the first. */
  lemma RegionPages(data: nat, k: nat)
    requires k < 4 && KERNLINK < data < UPAGES + PHYSFRAMES
    ensures var r := Region(data, k);
            && r.size > 0 && r.va + r.size <= VPAGES * PGSIZE && r.pa % PGSIZE == 0 && r.perm < PGSIZE
            && r.va / PGSIZE == (if k == 0 then UPAGES else if k == 1 then KERNLINK
                                 else if k == 2 then data else DEVSPACE)
            && PagesIn(r.va, r.size) == (if k == 0 then 0x100 else if k == 1 then data - KERNLINK
                                         else if k == 2 then UPAGES + PHYSFRAMES - data else 0x2000)
            && r.pa / PGSIZE == (if k == 3 then DEVSPACE else r.va / PGSIZE - UPAGES)
  {
    WholePages(UPAGES, 0x100);
    WholePages(KERNLINK, data - KERNLINK);
    WholePages(data, UPAGES + PHYSFRAMES - data);
    WholePages(DEVSPACE, 0x2000);
  }

  lemma RegionBounds(data: nat, k: nat)
    requires k < 4 && KERNLINK < data < UPAGES + PHYSFRAMES
    ensures var r := Region(data, k);
            && r.size > 0 && r.va + r.size <= VPAGES * PGSIZE && r.pa % PGSIZE == 0 && r.perm < PGSIZE
            && UPAGES <= r.va / PGSIZE && r.va / PGSIZE + PagesIn(r.va, r.size) <= VPAGES
            && r.pa / PGSIZE + PagesIn(r.va, r.size) <= VPAGES
  {
    RegionPages(data, k);
  }

  /** What row k adds to the map, seen from one page. */
  lemma KernelPteNext(data: nat, k: nat, v: nat)
    requires k < 4 && KERNLINK < data < UPAGES + PHYSFRAMES && UPAGES <= v < VPAGES
    ensures var r := Region(data, k);
            && r.size > 0 && r.va / PGSIZE + PagesIn(r.va, r.size) <= VPAGES
            && r.pa / PGSIZE + PagesIn(r.va, r.size) <= VPAGES && r.perm < 3
            && if r.va / PGSIZE <= v < r.va / PGSIZE + PagesIn(r.va, r.size)
               then KernelPte(data, k + 1, v) == Entry(r.pa / PGSIZE + v - r.va / PGSIZE, WithP(r.perm))
                    && KernelPte(data, k, v) == 0
               else KernelPte(data, k + 1, v) == KernelPte(data, k, v)
  {
    RegionPages(data, k);
    RegionBounds(data, k);
  }

  lemma WholePages(v: nat, n: nat)
    requires n > 0
    ensures PagesIn(v * PGSIZE, n * PGSIZE) == n && v * PGSIZE / PGSIZE == v
  {
  }

  lemma RegionReady(m: Memory, own: Owners, d: nat, data: nat, k: nat)
    requires k < 4 && KERNLINK < data < UPAGES + PHYSFRAMES && KernelOnly(m, d, data, k)
    ensures var r := Region(data, k);
            && r.size > 0 && r.va + r.size <= VPAGES * PGSIZE && r.pa % PGSIZE == 0 && r.perm < PGSIZE
            && r.pa / PGSIZE + PagesIn(r.va, r.size) <= VPAGES
            && (forall v: nat :: r.va / PGSIZE <= v < r.va / PGSIZE + PagesIn(r.va, r.size) ==>
                 v < VPAGES && !Present(Pte(m, d, v)))
            && Supplied(own, r.va / PGSIZE, PagesIn(r.va, r.size), r.pa / PGSIZE)
  {
    hide Region;
    RegionBounds(data, k);
    var r := Region(data, k);
    forall v: nat | r.va / PGSIZE <= v < r.va / PGSIZE + PagesIn(r.va, r.size)
      ensures v < VPAGES && !Present(Pte(m, d, v))
    {
      KernelPteNext(data, k, v);
    }
  }

  lemma RegionMade(m0: Memory, own0: Owners, m1: Memory, own1: Owners, m2: Memory, own2: Owners, d: nat, data: nat,
      k: nat, n: nat)
    requires k < 4 && KERNLINK < data < UPAGES + PHYSFRAMES && d < |own1| && own1[d] == Dir
    requires Made(d, m0, own0, m1, own1) && KernelOnly(m1, d, data, k) && Unmapped(m1, d, 0, UPAGES)
    requires Quiet(own0) && Quiet(own1)
    requires Region(data, k).size > 0
    requires var r := Region(data, k);
             && MappedTo(m2, d, r.va / PGSIZE, n, r.pa / PGSIZE, r.perm)
             && Stable(d, r.va / PGSIZE, r.va / PGSIZE + n, m1, own1, m2, own2)
             && Taken(own1, own2, d, r.va / PGSIZE, n, r.pa / PGSIZE)
    ensures Made(d, m0, own0, m2, own2) && Unmapped(m2, d, 0, UPAGES) && Quiet(own2)
    ensures n == PagesIn(Region(data, k).va, Region(data, k).size) ==> KernelOnly(m2, d, data, k + 1)
  {
    var r := Region(data, k);
    hide Region;
    RegionBounds(data, k);
    assert Quiet(own2) by { hide Made, Stable; }
    MadeThen(m0, own0, m1, own1, m2, own2, d, r.va / PGSIZE, r.va / PGSIZE + n);
    hide Made, Taken, Quiet;
    assert Unmapped(m2, d, 0, UPAGES) by {
      forall v: nat | v < UPAGES
        ensures !Present(Pte(m2, d, v))
      {
        assert Pte(m2, d, v) == Pte(m1, d, v);
      }
    }
    if n == PagesIn(r.va, r.size) {
      forall v: nat | UPAGES <= v < VPAGES
        ensures Pte(m2, d, v) == KernelPte(data, k + 1, v)
      {
        KernelPteNext(data, k, v);
        if !(r.va / PGSIZE <= v < r.va / PGSIZE + n) {
          assert Pte(m2, d, v) == Pte(m1, d, v);
        }
      }
    }
  }

  // ----- copyuvm -----

  ghost predicate AllPresent(m: Memory, d: nat, n: nat) {
    d < |m| && n <= UPAGES && forall v: nat :: v < n ==> Present(Pte(m, d, v))
  }

  /** Page v of e is a copy, on another frame, of page v of d in memory m0. */
  ghost predicate CopyOf(m0: Memory, d: nat, m: Memory, own: Owners, e: nat, v: nat) {
    && |m| == |own| && d < |m0| && v < UPAGES && Frame(Pte(m0, d, v)) < |m0|
    && NewPage(m, own, e, v, m0[Frame(Pte(m0, d, v))], Flags(Pte(m0, d, v)))
  }

  ghost predicate Copied(m0: Memory, d: nat, m: Memory, own: Owners, e: nat, n: nat) {
    forall v: nat :: v < n ==> CopyOf(m0, d, m, own, e, v)
  }

  lemma CopiedNone(m0: Memory, d: nat, m: Memory, own: Owners, e: nat)
    ensures Copied(m0, d, m, own, e, 0)
  {
  }

  lemma MadeDir(m0: Memory, own0: Owners, m: Memory, own: Owners, e: nat)
    requires Made(e, m0, own0, m, own)
    ensures e < |own| && own[e] == Dir
  {
  }

  /** While e is built, the parent is as it was. */
  lemma ParentSame(m0: Memory, own0: Owners, m: Memory, own: Owners, d: nat, e: nat, n: nat, v: nat)
    requires Made(e, m0, own0, m, own) && TablesOk(m0, own0) && UsersOk(m0, own0) && AllPresent(m0, d, n) && v < n
    requires d < |own0| && own0[d] == Dir
    ensures d < |own| && own[d] == Dir && v / NENTRIES < NENTRIES && Present(m[d][v / NENTRIES])
    ensures Pte(m, d, v) == Pte(m0, d, v) && Present(Pte(m0, d, v)) && Flags(Pte(m0, d, v)) % 2 == 1
    ensures Frame(Pte(m0, d, v)) < |m0| && m[Frame(Pte(m0, d, v))] == m0[Frame(Pte(m0, d, v))]
  {
    Split(v, v);
    assert PdeOk(m0, own0, d, v / NENTRIES) && PteOk(m0, own0, d, v);
  }

  lemma MadeDrop(m0: Memory, own0: Owners, m1: Memory, own1: Owners, m2: Memory, own2: Owners, e: nat, v: nat, f: nat,
      p: Page, o: Owner)
    requires Made(e, m0, own0, m1, own1) && Stable(e, v, v + 1, m1, own1, m2, own2) && Quiet(own0) && Quiet(own1)
    requires f < |own2| && own2[f].Held? && Quiet(own2[f := Other]) && o.Free?
    ensures Made(e, m0, own0, m2[f := p], own2[f := o]) && Quiet(own2[f := o])
  {
    var quiet, own3, m3 := own2[f := Other], own2[f := o], m2[f := p];
    forall x: nat | x < |own3|
      ensures !own3[x].Held?
    {
      assert x != f ==> !quiet[x].Held?;
    }
    forall x: nat | x < |own0| && x != e && x != f
      ensures if own0[x].Free? then own3[x].Free? || Belongs(own3[x], e, x)
              else own3[x] == own0[x] && m3[x] == m0[x] && !Belongs(own0[x], e, x)
    {
      assert !own3[x].Held?;
    }
  }

  lemma CopyMore(m0: Memory, d: nat, m1: Memory, own1: Owners, m2: Memory, own2: Owners, e: nat, i: nat, data: nat)
    requires Stable(e, i, i + 1, m1, own1, m2, own2) && e < |own1| && own1[e] == Dir && i < UPAGES
    requires Copied(m0, d, m1, own1, e, i) && CopyOf(m0, d, m2, own2, e, i)
    requires KernelOnly(m1, e, data, 4) && Unmapped(m1, e, i, UPAGES)
    ensures Copied(m0, d, m2, own2, e, i + 1) && KernelOnly(m2, e, data, 4) && Unmapped(m2, e, i + 1, UPAGES)
  {
    forall v: nat | v < i + 1
      ensures CopyOf(m0, d, m2, own2, e, v)
    {
      if v < i {
        assert CopyOf(m0, d, m1, own1, e, v);
        assert Pte(m2, e, v) == Pte(m1, e, v);
      }
    }
    forall v: nat | i < v < VPAGES
      ensures Pte(m2, e, v) == Pte(m1, e, v)
    {
    }
  }

  // ----- What the hardware finds -----

  /** Every page table that is there lets all accesses through, so the entry of the page decides. */
  lemma TranslateIs(m: Memory, own: Owners, d: nat, va: nat, user: bool, write: bool)
    requires TablesOk(m, own) && d < |own| && own[d] == Dir && va < 0x1_0000_0000
    ensures var w := Pte(m, d, va / 4096);
            Translate(m, d, va, user, write) ==
              if w % 2 == 0 || (write && w / 2 % 2 == 0) || (user && w / 4 % 2 == 0) then None
              else Some(w / 4096 * 4096 + va % 4096)
  {
    assert va / 4096 / NENTRIES == va / 0x40_0000;
    var e := m[d][va / 0x40_0000];
    assert PdeOk(m, own, d, va / 0x40_0000);
    if Present(e) {
      assert e == Frame(e) * 4096 + 7;
    }
  }

  /** An operation leaves alone what other processes' addresses, and other addresses of its own, mean. */
  lemma StableAccess(d: nat, lo: nat, hi: nat, m: Memory, own: Owners, m': Memory, own': Owners, e: nat, va: nat,
      user: bool, write: bool)
    requires Stable(d, lo, hi, m, own, m', own') && TablesOk(m, own) && TablesOk(m', own')
    requires e < |own| && own[e] == Dir == own'[e] && va < 0x1_0000_0000 && !(e == d && lo <= va / 4096 < hi)
    ensures Translate(m', e, va, user, write) == Translate(m, e, va, user, write)
  {
    hide TablesOk, Translate;
    TranslateIs(m, own, e, va, user, write);
    TranslateIs(m', own', e, va, user, write);
  }

  lemma UnmappedAccess(m: Memory, own: Owners, d: nat, lo: nat, hi: nat, va: nat, user: bool, write: bool)
    requires TablesOk(m, own) && d < |own| && own[d] == Dir && Unmapped(m, d, lo, hi) && lo <= va / 4096 < hi
    ensures va < 0x1_0000_0000 && Translate(m, d, va, user, write) == None
  {
    hide TablesOk, Translate;
    assert va / 4096 < VPAGES;
    TranslateIs(m, own, d, va, user, write);
  }

  lemma NewAccess(m: Memory, own: Owners, d: nat, lo: nat, hi: nat, va: nat)
    requires TablesOk(m, own) && d < |own| && own[d] == Dir && NewPages(m, own, d, lo, hi) && lo <= va / 4096 < hi
    requires va < 0x1_0000_0000
    ensures var pa := Translate(m, d, va, true, true);
            && pa.Some? && pa.value / 4096 < |m| && pa.value % 4096 == va % 4096
            && own[pa.value / 4096] == User(d, va / 4096) && m[pa.value / 4096][pa.value % 4096 / 4] == 0
  {
    hide TablesOk, Translate, Pte;
    TranslateIs(m, own, d, va, true, true);
    assert NewPage(m, own, d, va / 4096, ZeroPage(), PTE_PWU);
    FlagBits(Pte(m, d, va / 4096));
  }

  /** The three lowest bits of an entry are those of its flags. */
  lemma FlagBits(w: Word)
    ensures w % 2 == Flags(w) % 2 && w / 2 % 2 == Flags(w) / 2 % 2 && w / 4 % 2 == Flags(w) / 4 % 2
  {
    var q, f := Frame(w), Flags(w);
    EvenPlus(2048 * q, f);
    Halve(2048 * q, f);
    EvenPlus(1024 * q, f / 2);
    Halve(1024 * q, f / 2);
    EvenPlus(512 * q, f / 4);
  }

  lemma EvenPlus(x: nat, y: nat)
    ensures (2 * x + y) % 2 == y % 2
  {
  }

  lemma Halve(x: nat, y: nat)
    ensures (2 * x + y) / 2 == x + y / 2
  {
  }

  lemma GivenBack(m0: Memory, own0: Owners, m: Memory, own: Owners, free: seq<nat>, d: nat, lo: nat, hi: nat, va: nat)
    requires TablesOk(m0, own0) && d < |own0| && own0[d] == Dir && FreeOk(free, own) && Returned(m0, m, own, d)
    requires Unmapped(m, d, lo, hi) && lo <= va / 4096 < hi <= UPAGES
    ensures va < 0x1_0000_0000
    ensures var pa := Translate(m0, d, va, false, false); pa.Some? ==> pa.value / 4096 in free
  {
    hide TablesOk, Translate, Pte, FreeOk;
    TranslateIs(m0, own0, d, va, false, false);
    var f := Frame(Pte(m0, d, va / 4096));
    if f < |own| {
      InFree(free, own, f);
    }
  }

  /** What freevm gives back, in the entries' own words. */
  lemma ReleasedFrames(m0: Memory, own0: Owners, m: Memory, own: Owners, free0: seq<nat>, free: seq<nat>, d: nat)
    requires MapsOk(m0, own0) && d < |own0| && own0[d] == Dir && Released(d, m0, own0, m, own)
    requires FreeOk(free0, own0) && FreeOk(free, own)
    ensures d in free && forall i: nat :: i < 1024 && m0[d][i] % 2 == 1 ==> m0[d][i] / 4096 in free
    ensures forall v: nat :: v < UPAGES && Pte(m0, d, v) % 2 == 1 ==> Pte(m0, d, v) / 4096 in free
    ensures forall f :: f in free && f !in free0 ==>
              || f == d
              || (exists i: nat :: i < 1024 && m0[d][i] % 2 == 1 && m0[d][i] / 4096 == f)
              || exists v: nat :: v < UPAGES && Pte(m0, d, v) % 2 == 1 && Pte(m0, d, v) / 4096 == f
  {
    hide Pte;
    InFree(free, own, d);
    forall i: nat | i < 1024 && m0[d][i] % 2 == 1
      ensures m0[d][i] / 4096 in free
    {
      assert PdeOk(m0, own0, d, i);
      InFree(free, own, m0[d][i] / 4096);
    }
    forall v: nat | v < UPAGES && Pte(m0, d, v) % 2 == 1
      ensures Pte(m0, d, v) / 4096 in free
    {
      assert PteOk(m0, own0, d, v);
      InFree(free, own, Pte(m0, d, v) / 4096);
    }
    forall f | f in free && f !in free0 && f != d
      ensures || (exists i: nat :: i < 1024 && m0[d][i] % 2 == 1 && m0[d][i] / 4096 == f)
              || exists v: nat :: v < UPAGES && Pte(m0, d, v) % 2 == 1 && Pte(m0, d, v) / 4096 == f
    {
      WasOf(m0, own0, m, own, free0, free, d, f);
    }
  }

  lemma WasOf(m0: Memory, own0: Owners, m: Memory, own: Owners, free0: seq<nat>, free: seq<nat>, d: nat, f: nat)
    requires MapsOk(m0, own0) && d < |own0| && own0[d] == Dir && Released(d, m0, own0, m, own)
    requires FreeOk(free0, own0) && FreeOk(free, own) && f in free && f !in free0 && f != d
    ensures || (exists i: nat :: i < 1024 && m0[d][i] % 2 == 1 && m0[d][i] / 4096 == f)
            || exists v: nat :: v < UPAGES && Pte(m0, d, v) % 2 == 1 && Pte(m0, d, v) / 4096 == f
  {
    hide Pte;
    var k :| 0 <= k < |free| && free[k] == f;
    InFree(free, own, f);
    InFree(free0, own0, f);
    assert Belongs(own0[f], d, f);
    assert TableOk(m0, own0, f) && UserOk(m0, own0, f);
  }

  lemma UndoneFree(m0: Memory, own0: Owners, free0: seq<nat>, m: Memory, own: Owners, free: seq<nat>)
    requires Undone(m0, own0, m, own) && FreeOk(free0, own0) && FreeOk(free, own)
    ensures forall f: nat :: f in free <==> f in free0
  {
  }

  lemma CopyAccess(m0: Memory, own0: Owners, d: nat, m: Memory, own: Owners, e: nat, n: nat, va: nat, user: bool,
      write: bool)
    requires TablesOk(m0, own0) && d < |own0| && own0[d] == Dir && TablesOk(m, own) && e < |own| && own[e] == Dir
    requires Copied(m0, d, m, own, e, n) && va / 4096 < n && va < 0x1_0000_0000
    ensures var p, q := Translate(m0, d, va, user, write), Translate(m, e, va, user, write);
            && (p.Some? <==> q.Some?)
            && (p.Some? ==>
                 && p.value / 4096 < |m0| && q.value / 4096 < |m| && p.value % 4096 == q.value % 4096 == va % 4096
                 && own[q.value / 4096] == User(e, va / 4096)
                 && m[q.value / 4096][q.value % 4096 / 4] == m0[p.value / 4096][p.value % 4096 / 4])
  {
    hide TablesOk, Translate, Pte;
    TranslateIs(m0, own0, d, va, user, write);
    TranslateIs(m, own, e, va, user, write);
    assert CopyOf(m0, d, m, own, e, va / 4096);
    FlagBits(Pte(m0, d, va / 4096));
    FlagBits(Pte(m, e, va / 4096));
  }

  /** The kernel part of an address space: physical memory from KERNBASE on, the kernel's text and constants
      read-only, the devices at their own addresses, and nothing for the user. */
  lemma KernelAccess(m: Memory, own: Owners, d: nat, data: nat, va: nat, user: bool, write: bool)
    requires TablesOk(m, own) && d < |own| && own[d] == Dir && KernelOnly(m, d, data, 4)
    requires KERNLINK < data < UPAGES + PHYSFRAMES && KERNBASE <= va < 0x1_0000_0000
    ensures Translate(m, d, va, user, write) ==
              if user then None
              else if va < KERNBASE + 0x10_0000 then Some(va - KERNBASE)
              else if va < data * 4096 then if write then None else Some(va - KERNBASE)
              else if va < KERNBASE + 0xE00_0000 then Some(va - KERNBASE)
              else if 0xFE00_0000 <= va then Some(va)
              else None
  {
    hide TablesOk, Translate, Pte;
    TranslateIs(m, own, d, va, user, write);
    var v := va / 4096;
    assert va == v * 4096 + va % 4096;
    assert Pte(m, d, v) == KernelPte(data, 4, v);
    FlagBits(KernelPte(data, 4, v));
    if UPAGES <= v < UPAGES + PHYSFRAMES {
      EntryParts(v - UPAGES, PTE_P + PTE_W);
      EntryParts(v - UPAGES, PTE_P);
    } else if DEVSPACE <= v {
      EntryParts(v, PTE_P + PTE_W);
    }
  }

  // ----- What the invariant and the contracts say together -----

  /** No frame has two uses: two user pages, in one directory or two, never share a frame, and no such
      frame is free, a directory or a table. */
  lemma NoSharing(free: seq<nat>, m: Memory, own: Owners, first: nat, d: nat, v: nat, e: nat, u: nat)
    requires Inv(free, m, own, first) && d < |own| && own[d] == Dir && e < |own| && own[e] == Dir
    requires v < UPAGES && Present(Pte(m, d, v))
    ensures var f := Frame(Pte(m, d, v));
            && first <= f < |own| && f !in free && own[f] != Dir
            && (u < UPAGES && Present(Pte(m, e, u)) && (d, v) != (e, u) ==> Frame(Pte(m, e, u)) != f)
            && (u < NENTRIES && Present(m[e][u]) ==> Frame(m[e][u]) != f)
  {
    assert PteOk(m, own, d, v);
    if u < UPAGES {
      assert PteOk(m, own, e, u);
    }
    if u < NENTRIES {
      assert PdeOk(m, own, e, u);
    }
  }

  /** A failed allocuvm: the pages mapped are those mapped before, on the same frames, and every frame is
      a user page exactly if it was, of the same page. */
  lemma RolledBack(m: Memory, own: Owners, m': Memory, own': Owners, d: nat, lo: nat, hi: nat, v: nat, f: nat)
    requires MapsOk(m, own) && MapsOk(m', own') && Stable(d, lo, hi, m, own, m', own') && d < |own| && own[d] == Dir
    requires Unmapped(m, d, lo, hi) && Unmapped(m', d, lo, hi) && v < UPAGES && f < |own|
    ensures Present(Pte(m', d, v)) <==> Present(Pte(m, d, v))
    ensures Present(Pte(m, d, v)) ==> Pte(m', d, v) == Pte(m, d, v)
    ensures own'[f].User? || own[f].User? ==> own'[f] == own[f] && m'[f] == m[f]
  {
    assert UserOk(m, own, f) && UserOk(m', own', f);
  }

  // ----- The operations -----

  class Machine {
    const first: nat        // the first frame after the kernel
    var head: Word          // kmem.freelist
    var mem: Memory
    ghost var free: seq<nat>
    ghost var own: Owners

    ghost predicate Valid()
      reads this
    {
      |mem| == |own| == PHYSFRAMES && Inv(free, mem, own, first) && Chain(free, mem, head)
    }

    /** Before kinit1: nothing is free yet. */
    constructor (image: Memory, kernel: nat)
      requires |image| == PHYSFRAMES && 0 < kernel <= PHYSFRAMES
      ensures Valid() && free == [] && mem == image && first == kernel
      ensures forall f: nat :: f < |own| ==> own[f] == Other
    {
      first, head, free, mem := kernel, 0, [], image;
      own := seq(PHYSFRAMES, _ => Other);
    }

    method Kfree(f: nat)
      requires Valid() && first <= f < |mem| && Loose(own[f]) && !own[f].Free?
      modifies this
      ensures Valid() && free == old(free) + [f]
      ensures mem == old(mem)[f := FreedPage(old(head))] && own == old(own)[f := Free(|old(free)|)]
      ensures head == 0x8000_0000 + f * 4096 && mem[f][0] == old(head)
    {
      hide TablesOk, UsersOk, Chain, FreedPage;
      ChainPush(free, own, mem, head, f);
      WriteOk(mem, own, f, FreedPage(head));
      RelabelOk(mem[f := FreedPage(head)], own, f, Free(|free|));
      mem := mem[f := FreedPage(head)];
      head := KERNBASE + f * PGSIZE;
      own := own[f := Free(|free|)];
      free := free + [f];
    }

    /** 0 when no frame is left. */
    method Kalloc() returns (f: nat)
      requires Valid()
      modifies `head, `free, `own
      ensures Valid() && (f == 0 <==> old(free) == [])
      ensures f == 0 ==> unchanged(this)
      ensures f != 0 ==>
                && first <= f < |mem| && old(own)[f] == Free(|old(free)| - 1)
                && free == old(free)[..|old(free)| - 1] && own == old(own)[f := Held]
                && old(head) == 0x8000_0000 + f * 4096 && head == mem[f][0]
    {
      hide TablesOk, UsersOk, Chain;
      ChainPop(free, own, mem, head);
      if head == 0 {
        return 0;
      }
      f := (head - KERNBASE) / PGSIZE;
      RelabelOk(mem, own, f, Held);
      head := mem[f][0];
      own := own[f := Held];
      free := free[..|free| - 1];
    }

    /** freerange: the whole frames between the physical addresses vstart and vend become free. */
    method FreeRange(vstart: nat, vend: nat)
      requires Valid() && first * PGSIZE <= vstart && vend <= |mem| * PGSIZE
      requires forall f: nat :: Whole(f, vstart, vend) ==> f < |own| && own[f] == Other
      modifies this
      ensures Valid() && |own| == |old(own)|
      ensures forall f: nat :: f < |own| ==> if Whole(f, vstart, vend) then own[f].Free? else own[f] == old(own)[f]
      ensures forall f: nat :: f in free <==> f in old(free) || (vstart <= f * 4096 && (f + 1) * 4096 <= vend)
    {
      hide Inv, Chain;
      ghost var own0 := own;
      FreeIs(free, mem, own, first);
      var p := (vstart + PGSIZE - 1) / PGSIZE;
      while (p + 1) * PGSIZE <= vend
        invariant (vstart + PGSIZE - 1) / PGSIZE <= p && Valid() && |own| == |old(own)| == |mem|
        invariant forall f: nat :: f < |own| ==>
                    if Whole(f, vstart, vend) && f < p then own[f].Free? else own[f] == old(own)[f]
        decreases vend - p
      {
        Kfree(p);
        p := p + 1;
      }
      FreeIs(free, mem, own, first);
      forall f: nat
        ensures f in free <==> f in old(free) || (vstart <= f * 4096 && (f + 1) * 4096 <= vend)
      {
        assert Whole(f, vstart, vend) <==> vstart <= f * 4096 && (f + 1) * 4096 <= vend;
        assert f in old(free) <==> f < |own0| && own0[f].Free?;
      }
    }

    /** walkpgdir. t is the frame of the table for page v, or 0. */
    method Walk(d: nat, v: nat, alloc: bool) returns (t: nat)
      requires Valid() && d < |own| == |mem| && own[d] == Dir && v < VPAGES
      modifies this
      ensures Valid() && |own| == |old(own)| && own[d] == Dir && v / NENTRIES < NENTRIES
      ensures t == 0 || !alloc || Present(old(mem)[d][v / NENTRIES]) ==> unchanged(this)
      ensures t == 0 <==> !Present(mem[d][v / NENTRIES])
      ensures t == 0 && alloc ==> free == []
      ensures t != 0 ==> Frame(mem[d][v / NENTRIES]) == t < |mem|
      ensures t != 0 ==> mem[d][v / NENTRIES] == t * 4096 + PTE_P + PTE_W + PTE_U
      ensures |free| >= |old(free)| - 1
      ensures own == old(own) ||
                exists f: nat :: f < |own| && old(own)[f].Free? && own == old(own)[f := Table(d, v / NENTRIES)]
      ensures Stable(d, 0, 0, old(mem), old(own), mem, own)
      ensures HeldContents(old(mem), old(own), mem)
    {
      hide Chain, TablesOk, UsersOk;
      Split(v, v);
      StableSelf(d, 0, 0, mem, own);
      var i := v / NENTRIES;
      var e := mem[d][i];
      if Present(e) {
        TableFrame(mem, own, first, d, i);
        t := Frame(e);
      } else {
        if !alloc {
          return 0;
        }
        t := Kalloc();
        if t == 0 {
          return;
        }
        InstallStable(old(mem), old(own), d, i, t);
        InstallOk(mem, own, d, i, t);
        EntryParts(t, PTE_P + PTE_W + PTE_U);
        ghost var m := mem;
        ChainKeeps(free, own, mem, head, t, ZeroPage());
        mem := mem[t := ZeroPage()];
        ChainKeeps(free, own, mem, head, d, mem[d][i := Entry(t, PTE_P + PTE_W + PTE_U)]);
        mem := mem[d := mem[d][i := Entry(t, PTE_P + PTE_W + PTE_U)]];
        assert mem == Install(m, d, i, t);
        own := own[t := Table(d, i)];
      }
    }

    /** One turn of mappages's loop: page v of d onto frame f. */
    method MapPage(d: nat, v: nat, f: nat, perm: nat) returns (ok: bool)
      requires Valid() && d < |own| && own[d] == Dir && v < VPAGES && f < VPAGES && perm < PGSIZE
      requires !Present(Pte(mem, d, v)) && (v < UPAGES ==> f < |own| && own[f].Held?)
      modifies this
      ensures Valid() && |own| == |old(own)| && own[d] == Dir
      ensures if ok then MappedTo(mem, d, v, 1, f, perm) && Stable(d, v, v + 1, old(mem), old(own), mem, own)
              else free == [] && unchanged(this)
      ensures Taken(old(own), own, d, v, if ok then 1 else 0, f)
      ensures HeldContents(old(mem), old(own), mem)
      ensures v / NENTRIES < NENTRIES && (ok <==> Present(mem[d][v / NENTRIES]))
      ensures |free| >= |old(free)| - if Present(old(mem)[d][v / NENTRIES]) then 0 else 1
    {
      Split(v, v);
      hide Chain, TablesOk, UsersOk, FreeOk, KernelOk, Stable, MappedTo, Taken, HeldContents, MapsOk, Entry;
      MapNone(d, v, f, perm, mem, own);
      var t := Walk(d, v, true);
      if t == 0 {
        return false;
      }
      ghost var m1, own1 := mem, own;
      ghost var own2 := if v < UPAGES then own1[f := User(d, v)] else own1;
      AreMaps(m1, own1);
      if v < UPAGES {
        HeldUsed(free, own1, first, f, User(d, v));
      }
      WalkSame(d, v, old(mem), old(own), m1, own1);
      MapStep(m1, own1, d, v, f, perm, own2);
      MapStepFrame(old(mem), old(own), m1, own1, d, v, f, Entry(f, WithP(perm)), own2);
      AreMaps(SetPte(m1, d, v, Entry(f, WithP(perm))), own2);
      SetPteChain(free, own1, m1, head, d, v, Entry(f, WithP(perm)));
      mem := mem[t := mem[t][v % NENTRIES := Entry(f, WithP(perm))]];
      own := own2;
      return true;
    }

    /** mappages: pages va..va+size of d onto the frames from pa on. The pages of the user part take
        frames that the caller holds. k counts the pages done; it stops early when kalloc fails. */
    method MapPages(d: nat, va: nat, size: nat, pa: nat, perm: nat) returns (ok: bool, ghost k: nat)
      requires Valid() && d < |own| && own[d] == Dir && size > 0 && va + size <= VPAGES * PGSIZE
      requires pa % PGSIZE == 0 && perm < PGSIZE && pa / PGSIZE + PagesIn(va, size) <= VPAGES
      requires forall v: nat :: va / PGSIZE <= v < va / PGSIZE + PagesIn(va, size) ==> !Present(Pte(mem, d, v))
      requires Supplied(own, va / PGSIZE, PagesIn(va, size), pa / PGSIZE)
      modifies this
      ensures Valid() && |own| == |old(own)| && own[d] == Dir
      ensures k <= PagesIn(va, size) && (ok <==> k == PagesIn(va, size)) && (!ok ==> free == [])
      ensures |free| >= |old(free)| - TablesIn(va, size) && (!ok ==> |old(free)| < TablesIn(va, size))
      ensures MappedTo(mem, d, va / PGSIZE, k, pa / PGSIZE, perm)
      ensures Stable(d, va / PGSIZE, va / PGSIZE + k, old(mem), old(own), mem, own)
      ensures Taken(old(own), own, d, va / PGSIZE, k, pa / PGSIZE)
      ensures HeldContents(old(mem), old(own), mem)
    {
      hide Chain, TablesOk, UsersOk, FreeOk, KernelOk, Stable, MappedTo, Taken, HeldContents;
      var a, last, f := va / PGSIZE, (va + size - 1) / PGSIZE, pa / PGSIZE;
      ghost var v0, f0, m0, own0 := a, f, mem, own;
      k, ok := 0, true;
      MapNone(d, v0, f0, perm, mem, own);
      while ok
        invariant Valid() && |own| == |own0| && own[d] == Dir && a == v0 + k && f == f0 + k && ok
        invariant k < PagesIn(va, size) && a / NENTRIES < NENTRIES
        invariant |free| >= |old(free)| - (a / NENTRIES - v0 / NENTRIES + 1) +
                              if k == 0 || (a - 1) / NENTRIES != a / NENTRIES then 1 else 0
        invariant k > 0 ==> Present(mem[d][(a - 1) / NENTRIES])
        invariant MappedTo(mem, d, v0, k, f0, perm) && Stable(d, v0, v0 + k, m0, own0, mem, own)
        invariant Taken(own0, own, d, v0, k, f0) && HeldContents(m0, own0, mem)
        decreases PagesIn(va, size) - k
      {
        ghost var m1, own1 := mem, own;
        MapReady(m0, own0, m1, own1, d, v0, PagesIn(va, size), k, f0);
        ok := MapPage(d, a, f, perm);
        if !ok {
          MapFailed(m0, own0, m1, own1, mem, own, d, v0, k, f0, perm);
          return;
        }
        MapMore(m0, own0, m1, own1, mem, own, d, v0, k, f0, perm);
        k := k + 1;
        if a == last {
          break;
        }
        a := a + 1;
        f := f + 1;
      }
    }

    /** The body of deallocuvm's loop for a page that is present; t is the frame of its table. */
    method UnmapPage(d: nat, v: nat, t: nat)
      requires Valid() && d < |own| && own[d] == Dir && v < UPAGES && v / NENTRIES < NENTRIES
      requires Present(mem[d][v / NENTRIES]) && t == Frame(mem[d][v / NENTRIES]) < |mem|
      requires Present(mem[t][v % NENTRIES])
      modifies this
      ensures Valid() && |own| == |old(own)| && own[d] == Dir && Pte(mem, d, v) == 0
      ensures Stable(d, v, v + 1, old(mem), old(own), mem, own)
      ensures HeldSame(old(own), own) && HeldContents(old(mem), old(own), mem)
      ensures Frame(Pte(old(mem), d, v)) < |own| && own == old(own)[Frame(Pte(old(mem), d, v)) := Free(|old(free)|)]
    {
      hide Chain, TablesOk, UsersOk, FreeOk;
      ghost var m0, own0 := mem, own;
      var f := Frame(mem[t][v % NENTRIES]);
      UnmapOk(m0, own0, d, v, Other);
      NotKernel(own0, first, f);
      SetPteChain(free, own, mem, head, d, v, 0);
      mem := mem[t := mem[t][v % NENTRIES := 0]];
      own := own[f := Other];
      FreeKeeps(free, own0, f, Other);
      UnmapStep(m0, own0, d, v, f, FreedPage(head), Free(|free|));
      Kfree(f);
      assert own == own0[f := own[f]];
    }

    /** deallocuvm, with old and new the sizes in bytes. Where a page has no table the loop skips to the
        end of its 4 MB, and misses no page. */
    method DeallocUvm(d: nat, oldsz: nat, newsz: nat) returns (r: nat)
      requires Valid() && d < |own| && own[d] == Dir && oldsz <= KERNBASE
      modifies this
      ensures Valid() && |own| == |old(own)| && own[d] == Dir && r == if newsz >= oldsz then oldsz else newsz
      ensures newsz >= oldsz ==> unchanged(this)
      ensures newsz < oldsz ==> Unmapped(mem, d, PagesTo(newsz), PagesTo(oldsz))
      ensures forall va: nat, user, write :: (newsz + 4095) / 4096 * 4096 <= va < oldsz ==>
                Translate(mem, d, va, user, write) == None
      ensures d < |old(mem)| && forall va: nat :: (newsz + 4095) / 4096 * 4096 <= va < oldsz ==>
                var pa := Translate(old(mem), d, va, false, false); pa.Some? ==> pa.value / 4096 in free
      ensures Stable(d, PagesTo(newsz), PagesTo(oldsz), old(mem), old(own), mem, own)
      ensures HeldSame(old(own), own) && HeldContents(old(mem), old(own), mem)
    {
      hide Translate, Chain, TablesOk, UsersOk, FreeOk, KernelOk, Stable, Unmapped, HeldSame, HeldContents;
      ghost var lo, hi, m0, own0 := PagesTo(newsz), PagesTo(oldsz), mem, own;
      UnmapNone(d, lo, hi, mem, own);
      ReturnedNone(mem, own, d);
      if newsz >= oldsz {
        return oldsz;
      }
      var a := (newsz + PGSIZE - 1) / PGSIZE;
      while a * PGSIZE < oldsz
        invariant Valid() && |own| == |own0| && own[d] == Dir && lo <= a <= UPAGES
        invariant Unmapped(mem, d, lo, if a < hi then a else hi)
        invariant Stable(d, lo, hi, m0, own0, mem, own) && HeldSame(own0, own) && HeldContents(m0, own0, mem)
        invariant Returned(m0, mem, own, d)
        decreases UPAGES - a
      {
        ghost var m1, own1 := mem, own;
        var t := Walk(d, a, false);
        if t == 0 {
          SkipTable(m1, d, lo, a, hi);
          a := (a / NENTRIES + 1) * NENTRIES - 1;
        } else if Present(mem[t][a % NENTRIES]) {
          ghost var k := |free|;
          UnmapPage(d, a, t);
          ReturnedMore(m0, m1, own1, mem, own, d, a, Frame(Pte(m1, d, a)), k);
          UnmapMore(m0, own0, m1, own1, mem, own, d, lo, a, hi);
        } else {
          NotThere(m1, d, lo, a, hi, t);
        }
        a := a + 1;
      }
      r := newsz;
      forall va: nat, user, write | (newsz + 4095) / 4096 * 4096 <= va < oldsz
        ensures Translate(mem, d, va, user, write) == None
      {
        UnmappedAccess(mem, own, d, lo, hi, va, user, write);
      }
      forall va: nat | (newsz + 4095) / 4096 * 4096 <= va < oldsz && Translate(m0, d, va, false, false).Some?
        ensures Translate(m0, d, va, false, false).value / 4096 in free
      {
        GivenBack(m0, own0, mem, own, free, d, lo, hi, va);
      }
    }

    /** What the loops of allocuvm and copyuvm do for page v: kalloc, fill the frame with p, and mappages.
        On failure nothing is mapped; f is then the frame that mappages did not map, or 0 if there was none. */
    method FillPage(d: nat, v: nat, p: Page, perm: nat) returns (ok: bool, f: nat)
      requires Valid() && d < |own| && own[d] == Dir && v < UPAGES && Quiet(own) && !Present(Pte(mem, d, v))
      requires perm < PGSIZE
      modifies this
      ensures Valid() && |own| == |old(own)| && own[d] == Dir && Stable(d, v, v + 1, old(mem), old(own), mem, own)
      ensures ok ==> Quiet(own) && NewPage(mem, own, d, v, p, WithP(perm))
      ensures !ok && f == 0 ==> Quiet(own)
      ensures !ok && f != 0 ==> first <= f < |own| && own[f] == Held && Quiet(own[f := Other])
      ensures !ok ==> !Present(Pte(mem, d, v))
      ensures if ok then |free| >= |old(free)| - 2 else |old(free)| < 2
    {
      hide Chain, TablesOk, UsersOk, FreeOk, KernelOk, Stable, Taken, HeldContents, MappedTo, Supplied, Quiet;
      ghost var m0, own0 := mem, own;
      StableSelf(d, v, v + 1, mem, own);
      f := Kalloc();
      if f == 0 {
        return false, 0;
      }
      ChainKeeps(free, own, mem, head, f, p);
      mem := mem[f := p];
      WriteOk(m0, own, f, p);
      ghost var m1, own1 := mem, own;
      LooseStable(d, v, v + 1, m0, own0, f, p, Held);
      OneSupplied(own, v, f);
      OnePage(v, f);
      WriteAt(m0, own0, f, p, d, v);
      ghost var k;
      ok, k := MapPages(d, v * PGSIZE, PGSIZE, f * PGSIZE, perm);
      if ok {
        NewPageIs(m0, own0, m1, own1, mem, own, d, v, f, p, perm);
      } else {
        NewPageNot(m0, own0, m1, own1, mem, own, d, v, f);
      }
    }

    /** allocuvm. It fails only when kalloc does: never with two free frames for each page, one for the
        page and one for its table. Then the user part maps what it mapped before. */
    method AllocUvm(d: nat, oldsz: nat, newsz: nat) returns (r: nat)
      requires Valid() && d < |own| && own[d] == Dir && Quiet(own)
      requires oldsz <= newsz < KERNBASE ==> Unmapped(mem, d, PagesTo(oldsz), PagesTo(newsz))
      modifies this
      ensures Valid() && |own| == |old(own)| && own[d] == Dir && Quiet(own)
      ensures newsz >= KERNBASE || newsz < oldsz ==> unchanged(this) && r == if newsz >= KERNBASE then 0 else oldsz
      ensures oldsz <= newsz < KERNBASE ==>
                && (r == newsz || r == 0)
                && (if r == newsz then NewPages(mem, own, d, PagesTo(oldsz), PagesTo(newsz))
                    else Unmapped(mem, d, PagesTo(oldsz), PagesTo(newsz)))
      ensures oldsz <= newsz < KERNBASE && r == newsz != 0 ==>
                forall va: nat :: (oldsz + 4095) / 4096 * 4096 <= va < newsz ==>
                  var pa := Translate(mem, d, va, true, true);
                  && pa.Some? && pa.value / 4096 < |mem| && pa.value % 4096 == va % 4096
                  && own[pa.value / 4096] == User(d, va / 4096) && mem[pa.value / 4096][pa.value % 4096 / 4] == 0
      ensures Stable(d, PagesTo(oldsz), PagesTo(newsz), old(mem), old(own), mem, own)
      ensures oldsz <= newsz < KERNBASE && r != newsz ==> |old(free)| < 2 * (PagesTo(newsz) - PagesTo(oldsz))
    {
      hide Translate, Chain, TablesOk, UsersOk, FreeOk, KernelOk, Stable, Quiet, NewPage, Unmapped, HeldSame,
        HeldContents, NewPages;
      ghost var lo, hi, m0, own0 := PagesTo(oldsz), PagesTo(newsz), mem, own;
      UnmapNone(d, lo, hi, mem, own);
      if newsz >= KERNBASE {
        return 0;
      }
      if newsz < oldsz {
        return oldsz;
      }
      var a := (oldsz + PGSIZE - 1) / PGSIZE;
      NoNewPages(mem, own, d, lo);
      while a * PGSIZE < newsz
        invariant Valid() && |own| == |own0| && own[d] == Dir && Quiet(own) && lo <= a <= hi
        invariant NewPages(mem, own, d, lo, a) && Stable(d, lo, hi, m0, own0, mem, own) && Unmapped(mem, d, a, hi)
        invariant |free| >= |old(free)| - 2 * (a - lo)
      {
        ghost var m1, own1 := mem, own;
        PageFree(mem, d, a, hi);
        var ok, f := FillPage(d, a, ZeroPage(), PTE_W + PTE_U);
        GrowStep(m0, own0, m1, own1, mem, own, d, lo, a, hi);
        if !ok {
          ghost var m2, own2 := mem, own;
          var gone := DeallocUvm(d, newsz, oldsz);
          StableThen(d, lo, hi, m0, own0, m2, own2, mem, own);
          QuietAfter(own2, own, f);
          if f != 0 {
            DropHeld(m0, own0, mem, own, d, lo, hi, f, FreedPage(head), Free(|free|));
            Kfree(f);
          }
          return 0;
        }
        MorePages(m1, own1, mem, own, d, lo, a);
        a := a + 1;
      }
      r := newsz;
      forall va: nat | (oldsz + 4095) / 4096 * 4096 <= va < newsz
        ensures var pa := Translate(mem, d, va, true, true);
                && pa.Some? && pa.value / 4096 < |mem| && pa.value % 4096 == va % 4096
                && own[pa.value / 4096] == User(d, va / 4096) && mem[pa.value / 4096][pa.value % 4096 / 4] == 0
      {
        NewAccess(mem, own, d, lo, hi, va);
      }
    }

    /** freevm: every frame of directory d, and no other, goes back to the free list. */
    method FreeVm(d: nat)
      requires Valid() && d < |own| && own[d] == Dir && Quiet(own)
      modifies this
      ensures Valid() && Released(d, old(mem), old(own), mem, own) && d < |old(mem)|
      ensures d in free && forall i: nat :: i < 1024 && old(mem)[d][i] % 2 == 1 ==> old(mem)[d][i] / 4096 in free
      ensures forall v: nat :: v < UPAGES && Pte(old(mem), d, v) % 2 == 1 ==> Pte(old(mem), d, v) / 4096 in free
      ensures forall f :: f in free && f !in old(free) ==>
                || f == d
                || (exists i: nat :: i < 1024 && old(mem)[d][i] % 2 == 1 && old(mem)[d][i] / 4096 == f)
                || exists v: nat :: v < UPAGES && Pte(old(mem), d, v) % 2 == 1 && Pte(old(mem), d, v) / 4096 == f
    {
      hide Chain, TablesOk, UsersOk, FreeOk, KernelOk, Stable, Quiet, Unmapped, HeldSame, HeldContents, Released;
      hide MapsOk, Giving, Abandoned;
      ghost var m0, own0 := mem, own;
      var r := DeallocUvm(d, KERNBASE, 0);
      ghost var m1, own1 := mem, own;
      NoUsersLeft(m1, own1, d);
      AbandonOk(m1, own1, d);
      AbandonFree(free, own1, d, first);
      own := Abandoned(own, d);
      GivingStart(m1, own1, d, own);
      var i := 0;
      while i < NENTRIES
        invariant 0 <= i <= NENTRIES && Valid() && Giving(d, i, m1, own1, mem, own)
      {
        GivingAt(d, i, m1, own1, mem, own, first);
        if Present(mem[d][i]) {
          GivingMore(d, i, m1, own1, mem, own, FreedPage(head), Free(|free|));
          Kfree(Frame(mem[d][i]));
        } else {
          GivingSkip(d, i, m1, own1, mem, own);
        }
        i := i + 1;
      }
      GivingEnd(d, m0, own0, m1, own1, mem, own, FreedPage(head), Free(|free|), first);
      Kfree(d);
      AreMaps(m0, own0);
      ReleasedFrames(m0, own0, mem, own, old(free), free, d);
    }

    /** setupkvm: a directory with the four kernel ranges and no user page, or 0. data is the page of the
        kernel's data segment. */
    method SetupKvm(data: nat) returns (d: nat)
      requires Valid() && Quiet(own) && KERNLINK < data < UPAGES + PHYSFRAMES
      modifies this
      ensures Valid() && Quiet(own)
      ensures d == 0 ==> Undone(old(mem), old(own), mem, own) && |old(free)| < KERNEL_FRAMES
      ensures d == 0 ==> forall f: nat :: f in free <==> f in old(free)
      ensures d != 0 ==> |free| >= |old(free)| - KERNEL_FRAMES
      ensures d != 0 ==>
                Made(d, old(mem), old(own), mem, own) && KernelOnly(mem, d, data, 4) && Unmapped(mem, d, 0, UPAGES)
      ensures d != 0 ==> forall va: nat, user, write :: va < 0x1_0000_0000 ==>
                Translate(mem, d, va, user, write) ==
                  if user || va < KERNBASE then None
                  else if va < KERNBASE + 0x10_0000 then Some(va - KERNBASE)
                  else if va < data * 4096 then if write then None else Some(va - KERNBASE)
                  else if va < KERNBASE + 0xE00_0000 then Some(va - KERNBASE)
                  else if 0xFE00_0000 <= va then Some(va)
                  else None
    {
      hide Translate, Chain, TablesOk, UsersOk, Stable, Quiet, Unmapped, Made, Undone, KernelOnly, MappedTo, Taken,
        HeldContents, Supplied, Released, Region;
      ghost var m0, own0 := mem, own;
      UndoneSelf(mem, own);
      d := Kalloc();
      if d == 0 {
        return;
      }
      ChainKeeps(free, own, mem, head, d, ZeroPage());
      mem := mem[d := ZeroPage()];
      WriteOk(m0, own, d, ZeroPage());
      DirOk(mem, own, d);
      own := own[d := Dir];
      MadeStart(m0, own0, mem, own, d, data, first);
      var k := 0;
      while k < 4
        invariant 0 <= k <= 4 && Valid() && d != 0 && d < |own| && own[d] == Dir && Quiet(own)
        invariant Made(d, m0, own0, mem, own) && KernelOnly(mem, d, data, k) && Unmapped(mem, d, 0, UPAGES)
        invariant |free| >= |old(free)| - 1 - TablesUpTo(data, k)
      {
        var r := Region(data, k);
        TablesBound(data, k);
        TablesBound(data, k + 1);
        ghost var m1, own1 := mem, own;
        RegionReady(mem, own, d, data, k);
        var ok;
        ghost var n;
        ok, n := MapPages(d, r.va, r.size, r.pa, r.perm);
        RegionMade(m0, own0, m1, own1, mem, own, d, data, k, n);
        if !ok {
          ghost var m2, own2 := mem, own;
          FreeVm(d);
          MadeUndone(m0, own0, m2, own2, mem, own, d);
          UndoneFree(m0, own0, old(free), mem, own, free);
          return 0;
        }
        k := k + 1;
      }
      TablesBound(data, 4);
      MadeDir(m0, own0, mem, own, d);
      forall va: nat, user, write | va < 0x1_0000_0000
        ensures Translate(mem, d, va, user, write) ==
                  if user || va < KERNBASE then None
                  else if va < KERNBASE + 0x10_0000 then Some(va - KERNBASE)
                  else if va < data * 4096 then if write then None else Some(va - KERNBASE)
                  else if va < KERNBASE + 0xE00_0000 then Some(va - KERNBASE)
                  else if 0xFE00_0000 <= va then Some(va)
                  else None
      {
        if va < KERNBASE {
          UnmappedAccess(mem, own, d, 0, UPAGES, va, user, write);
        } else {
          KernelAccess(mem, own, d, data, va, user, write);
        }
      }
    }

    /** copyuvm: a new directory e whose user pages have the contents and flags of those of d, on frames
        of their own; or 0, and then no frame is lost. */
    method CopyUvm(d: nat, sz: nat, data: nat) returns (e: nat)
      requires Valid() && Quiet(own) && KERNLINK < data < UPAGES + PHYSFRAMES && sz <= KERNBASE
      requires d < |own| && own[d] == Dir && AllPresent(mem, d, PagesTo(sz))
      modifies this
      ensures Valid() && Quiet(own)
      ensures e == 0 ==> Undone(old(mem), old(own), mem, own) && |old(free)| < KERNEL_FRAMES + 2 * PagesTo(sz)
      ensures e == 0 ==> forall f: nat :: f in free <==> f in old(free)
      ensures e != 0 ==>
                && Made(e, old(mem), old(own), mem, own) && KernelOnly(mem, e, data, 4)
                && Copied(old(mem), d, mem, own, e, PagesTo(sz)) && Unmapped(mem, e, PagesTo(sz), UPAGES)
      ensures e != 0 ==> d < |mem| && forall va: nat, user, write :: va < sz ==>
                var p, q := Translate(old(mem), d, va, user, write), Translate(mem, e, va, user, write);
                && (p.Some? <==> q.Some?)
                && (p.Some? ==>
                     && p.value / 4096 < |old(mem)| && q.value / 4096 < |mem|
                     && p.value % 4096 == q.value % 4096 == va % 4096 && own[q.value / 4096] == User(e, va / 4096)
                     && mem[q.value / 4096][q.value % 4096 / 4] == old(mem)[p.value / 4096][p.value % 4096 / 4])
      ensures e != 0 ==> forall va: nat, user, write :: (sz + 4095) / 4096 * 4096 <= va < KERNBASE ==>
                Translate(mem, e, va, user, write) == None
    {
      hide Translate, Chain, TablesOk, UsersOk, FreeOk, KernelOk, Stable, Quiet, Unmapped, Made, Undone, KernelOnly,
        Released, NewPage, Copied, AllPresent;
      ghost var m0, own0, n := mem, own, PagesTo(sz);
      e := SetupKvm(data);
      if e == 0 {
        return;
      }
      CopiedNone(m0, d, mem, own, e);
      MadeDir(m0, own0, mem, own, e);
      var i := 0;
      while i * PGSIZE < sz
        invariant 0 <= i <= n && Valid() && e != 0 && e < |own| && own[e] == Dir && Quiet(own)
        invariant Made(e, m0, own0, mem, own) && KernelOnly(mem, e, data, 4)
        invariant Copied(m0, d, mem, own, e, i) && Unmapped(mem, e, i, UPAGES)
        invariant |free| >= |old(free)| - KERNEL_FRAMES - 2 * i
      {
        ParentSame(m0, own0, mem, own, d, e, n, i);
        ghost var m1, own1 := mem, own;
        var t := Walk(d, i, false);
        var pte := mem[t][i % NENTRIES];
        PageFree(mem, e, i, UPAGES);
        var ok, f := FillPage(e, i, mem[Frame(pte)], Flags(pte));
        ghost var m2, own2 := mem, own;
        if !ok {
          if f != 0 {
            MadeDrop(m0, own0, m1, own1, m2, own2, e, i, f, FreedPage(head), Free(|free|));
            Kfree(f);
          } else {
            MadeThen(m0, own0, m1, own1, m2, own2, e, i, i + 1);
          }
          ghost var m3, own3 := mem, own;
          FreeVm(e);
          MadeUndone(m0, own0, m3, own3, mem, own, e);
          UndoneFree(m0, own0, old(free), mem, own, free);
          return 0;
        }
        MadeThen(m0, own0, m1, own1, m2, own2, e, i, i + 1);
        CopyMore(m0, d, m1, own1, m2, own2, e, i, data);
        i := i + 1;
      }
      MadeDir(m0, own0, mem, own, e);
      forall va: nat, user, write | va < sz
        ensures var p, q := Translate(m0, d, va, user, write), Translate(mem, e, va, user, write);
                && (p.Some? <==> q.Some?)
                && (p.Some? ==>
                     && p.value / 4096 < |m0| && q.value / 4096 < |mem|
                     && p.value % 4096 == q.value % 4096 == va % 4096 && own[q.value / 4096] == User(e, va / 4096)
                     && mem[q.value / 4096][q.value % 4096 / 4] == m0[p.value / 4096][p.value % 4096 / 4])
      {
        CopyAccess(m0, own0, d, mem, own, e, n, va, user, write);
      }
      forall va: nat, user, write | (sz + 4095) / 4096 * 4096 <= va < KERNBASE
        ensures Translate(mem, e, va, user, write) == None
      {
        UnmappedAccess(mem, own, e, n, UPAGES, va, user, write);
      }
    }
  }
}
