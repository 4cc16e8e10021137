/** The on-disk structures of fs.c as pure functions of the disk: block maps, the free bitmap,
    inodes, file contents; and the invariant that ties them together. */
module FsModel {
  import opened Common
  import opened Blocks
  import opened Bitmap

  const NDIRECT: nat := 12
  const NINDIRECT: nat := 128
  const MAXFILE: nat := 140
  const IPB: nat := 8

  /** A slot is a place that holds a block number: 0..11 the direct addresses, 12 the indirect
      address, 13..140 the entries of the indirect block. */
  const SLOTS: nat := 141

  type Disk = seq<Block>
  type Addrs = a: seq<Uint32> | |a| == 13 witness seq(13, _ => 0)
  type Short = x: int | 0 <= x < 0x1_0000

  /** The superblock of the one file system. The data blocks follow the bitmap. */
  datatype Super = Super(size: nat, ninodes: nat, inodestart: nat, bmapstart: nat) {
    function BBlock(b: nat): nat {
      b / BPB + bmapstart
    }

    function IBlock(inum: nat): nat {
      inum / IPB + inodestart
    }

    function DataStart(): nat {
      bmapstart + size / BPB + 1
    }

    predicate Data(b: nat) {
      DataStart() <= b < size
    }

    predicate Ok() {
      inodestart + ninodes / IPB < bmapstart && DataStart() <= size && size < UINT32 && inodestart > 0
    }
  }

  /** What an inode says on disk, and while it is in use also in memory. */
  datatype Meta = Meta(kind: Short, major: Short, minor: Short, nlink: Short, size: Uint32, addrs: Addrs)

  /** The disk, the inodes in use, and the slot that owns each allocated data block. */
  datatype Fs = Fs(d: Disk, table: map<nat, Meta>, owner: map<nat, (nat, nat)>)

  function At(d: Disk, b: nat): Block {
    if b < |d| then d[b] else ZeroBlock()
  }

  predicate Bit(sb: Super, d: Disk, b: nat) {
    BitOf(At(d, sb.BBlock(b)), b % BPB)
  }

  /** No block is free: what makes balloc panic. */
  ghost predicate DiskFull(sb: Super, d: Disk) {
    forall c: nat :: c < sb.size ==> Bit(sb, d, c)
  }

  function SlotAddr(d: Disk, a: Addrs, k: nat): Uint32
    requires k < SLOTS
  {
    if k <= NDIRECT then a[k]
    else if a[NDIRECT] == 0 then 0
    else Word(At(d, a[NDIRECT]), k - NDIRECT - 1)
  }

  /** The slot of block bn of a file. */
  function FileSlot(bn: nat): nat {
    if bn < NDIRECT then bn else bn + 1
  }

  function Addr(f: Fs, i: nat, k: nat): Uint32
    requires i in f.table && k < SLOTS
  {
    SlotAddr(f.d, f.table[i].addrs, k)
  }

  // ----- The invariant -----

  /** Every nonzero slot outside skip owns its block. */
  ghost predicate SlotsOwn(f: Fs, skip: set<(nat, nat)>) {
    forall i: nat, k: nat :: i in f.table && k < SLOTS && Addr(f, i, k) != 0 && (i, k) !in skip ==>
      Addr(f, i, k) as nat in f.owner && f.owner[Addr(f, i, k)] == (i, k)
  }

  /** Every owned block is a data block, found in the slot that owns it. */
  ghost predicate OwnersPoint(sb: Super, f: Fs, skip: set<(nat, nat)>) {
    forall b :: b in f.owner ==>
      && sb.Data(b) && f.owner[b] !in skip
      && f.owner[b].0 in f.table && f.owner[b].1 < SLOTS
      && Addr(f, f.owner[b].0, f.owner[b].1) == b
  }

  /** The bitmap marks exactly the metadata, the owned blocks and those just allocated. */
  ghost predicate BitsOk(sb: Super, f: Fs, loose: set<nat>) {
    forall b: nat :: b < sb.size ==>
      (Bit(sb, f.d, b) <==> b < sb.DataStart() || b in f.owner || b in loose)
  }

  /** Block conservation: allocated blocks and slots correspond one to one. loose holds blocks
      allocated but not yet in a slot; skip holds indirect entries already freed by itrunc. */
  ghost predicate FsInv(sb: Super, f: Fs, loose: set<nat>, skip: set<(nat, nat)>) {
    && sb.Ok() && |f.d| == sb.size
    && SlotsOwn(f, skip) && OwnersPoint(sb, f, skip) && BitsOk(sb, f, loose)
    && (forall b :: b in loose ==> sb.Data(b) && b !in f.owner)
    && (forall s :: s in skip ==> s.1 > NDIRECT)
    && (forall i :: i in f.table ==> i < sb.ninodes)
  }

  /** A block that holds indirect entries. */
  predicate Indirect(f: Fs, b: nat) {
    b in f.owner && f.owner[b].1 == NDIRECT
  }

  /** Only the bitmap and blocks without entries change: the slots stay what they were. */
  lemma SlotsFrame(sb: Super, f: Fs, loose: set<nat>, skip: set<(nat, nat)>, d': Disk, i: nat, k: nat)
    requires FsInv(sb, f, loose, skip) && |d'| == |f.d|
    requires forall b: nat :: Indirect(f, b) ==> At(d', b) == At(f.d, b)
    requires i in f.table && k < SLOTS
    ensures Addr(f.(d := d'), i, k) == Addr(f, i, k)
  {
    hide Word, BitsOk, OwnersPoint;
    var ind := f.table[i].addrs[NDIRECT];
    if ind != 0 {
      assert Addr(f, i, NDIRECT) == ind;
      assert Indirect(f, ind);
    }
  }

  lemma DiskFrame(sb: Super, f: Fs, loose: set<nat>, skip: set<(nat, nat)>, d': Disk, loose': set<nat>)
    requires FsInv(sb, f, loose, skip) && |d'| == |f.d|
    requires forall b: nat :: Indirect(f, b) ==> At(d', b) == At(f.d, b)
    requires BitsOk(sb, f.(d := d'), loose')
    requires forall b :: b in loose' ==> sb.Data(b) && b !in f.owner
    ensures FsInv(sb, f.(d := d'), loose', skip)
  {
    hide Addr, BitsOk, Bit;
    forall i: nat, k: nat | i in f.table && k < SLOTS
      ensures Addr(f.(d := d'), i, k) == Addr(f, i, k)
    {
      SlotsFrame(sb, f, loose, skip, d', i, k);
    }
  }

  /** balloc's two writes: the bit of block b, and zeros into b. */
  function Allocated(sb: Super, d: Disk, b: nat): Disk
    requires sb.Ok() && |d| == sb.size && sb.Data(b) && !Bit(sb, d, b)
  {
    d[sb.BBlock(b) := SetBit(At(d, sb.BBlock(b)), b % BPB)][b := ZeroBlock()]
  }

  lemma BitAllocated(sb: Super, d: Disk, b: nat, c: nat)
    requires sb.Ok() && |d| == sb.size && sb.Data(b) && !Bit(sb, d, b) && c < sb.size
    ensures Bit(sb, Allocated(sb, d, b), c) == (c == b || Bit(sb, d, c))
  {
    BitOfSetBit(At(d, sb.BBlock(b)), b % BPB, c % BPB);
    assert c / BPB == b / BPB && c % BPB == b % BPB ==> c == b;
  }

  /** Of all blocks and bits only these change. */
  lemma AllocatedIs(sb: Super, d: Disk, b: nat)
    requires sb.Ok() && |d| == sb.size && sb.Data(b) && !Bit(sb, d, b)
    ensures |Allocated(sb, d, b)| == |d| && Allocated(sb, d, b)[b] == seq(512, _ => 0)
    ensures forall c: nat :: c < sb.size ==> (Bit(sb, Allocated(sb, d, b), c) <==> c == b || Bit(sb, d, c))
    ensures forall c: nat :: c < |d| && c != b && c != sb.bmapstart + b / 4096 ==> Allocated(sb, d, b)[c] == d[c]
  {
    forall c: nat | c < sb.size
      ensures Bit(sb, Allocated(sb, d, b), c) == (c == b || Bit(sb, d, c))
    {
      BitAllocated(sb, d, b, c);
    }
  }

  /** Where the bit of block b is: 4096 bits to a block, from the lowest of each byte on. */
  lemma BitIs(sb: Super, d: Disk, b: nat)
    requires sb.bmapstart + b / 4096 < |d|
    ensures var byte, m := d[sb.bmapstart + b / 4096][b % 4096 / 8], [1, 2, 4, 8, 16, 32, 64, 128][b % 8];
            Bit(sb, d, b) <==> byte / m % 2 == 1
  {
    BitAtIs(d[sb.bmapstart + b / 4096][b % 4096 / 8], b % 8);
    assert b % 4096 % 8 == b % 8;
  }

  lemma AllocInv(sb: Super, f: Fs, loose: set<nat>, b: nat)
    requires FsInv(sb, f, loose, {}) && sb.Data(b) && !Bit(sb, f.d, b)
    ensures FsInv(sb, f.(d := Allocated(sb, f.d, b)), loose + {b}, {})
  {
    hide BitOf, SetBit, SlotsOwn, OwnersPoint;
    var d' := Allocated(sb, f.d, b);
    forall c: nat | c < sb.size
      ensures Bit(sb, d', c) == (c == b || Bit(sb, f.d, c))
    {
      BitAllocated(sb, f.d, b, c);
    }
    assert b !in f.owner && b !in loose;
    forall c: nat | Indirect(f, c)
      ensures At(d', c) == At(f.d, c)
    {
      OwnerIsData(sb, f, c, {});
    }
    DiskFrame(sb, f, loose, {}, d', loose + {b});
  }

  lemma OwnerIsData(sb: Super, f: Fs, b: nat, skip: set<(nat, nat)>)
    requires OwnersPoint(sb, f, skip) && b in f.owner
    ensures sb.Data(b)
  {
  }

  function SetAddr(f: Fs, i: nat, k: nat, b: Uint32): Fs
    requires i in f.table && k <= NDIRECT
  {
    f.(table := f.table[i := f.table[i].(addrs := f.table[i].addrs[k := b])])
  }

  lemma AttachAddr(f: Fs, b: Uint32, i: nat, k: nat, j: nat, m: nat)
    requires i in f.table && k <= NDIRECT && f.table[i].addrs[k] == 0 && At(f.d, b) == ZeroBlock()
    requires j in f.table && m < SLOTS
    ensures Addr(SetAddr(f, i, k, b), j, m) == if (j, m) == (i, k) then b else Addr(f, j, m)
  {
    hide Word;
    if j == i && k == NDIRECT && m > NDIRECT {
      WordOfZero(m - NDIRECT - 1);
    }
  }

  /** A zeroed loose block goes into an empty address of inode i. */
  lemma AttachInv(sb: Super, f: Fs, b: Uint32, i: nat, k: nat)
    requires FsInv(sb, f, {b}, {}) && At(f.d, b) == ZeroBlock()
    requires i in f.table && k <= NDIRECT && f.table[i].addrs[k] == 0
    ensures FsInv(sb, SetAddr(f, i, k, b).(owner := f.owner[b := (i, k)]), {}, {})
    ensures forall j: nat, m: nat :: j in f.table && m < SLOTS && (j, m) != (i, k) ==>
              Addr(SetAddr(f, i, k, b), j, m) == Addr(f, j, m)
  {
    hide SlotAddr, Bit;
    assert Addr(f, i, k) == 0 by { AddrOf(f, i, k); }
    var f' := SetAddr(f, i, k, b).(owner := f.owner[b := (i, k)]);
    forall j: nat, m: nat | j in f.table && m < SLOTS
      ensures Addr(f', j, m) == if (j, m) == (i, k) then b else Addr(f, j, m)
    {
      AttachAddr(f, b, i, k, j, m);
      AddrOfOwner(SetAddr(f, i, k, b), f'.owner, j, m);
    }
  }

  function SetEntry(f: Fs, i: nat, k: nat, b: Uint32): Fs
    requires i in f.table && NDIRECT < k < SLOTS && f.table[i].addrs[NDIRECT] < |f.d|
  {
    var ind := f.table[i].addrs[NDIRECT];
    f.(d := f.d[ind := SetWord(f.d[ind], k - NDIRECT - 1, b)])
  }

  lemma EntryAddr(sb: Super, f: Fs, b: Uint32, i: nat, k: nat, j: nat, m: nat)
    requires FsInv(sb, f, {b}, {})
    requires i in f.table && NDIRECT < k < SLOTS && f.table[i].addrs[NDIRECT] != 0
    requires j in f.table && m < SLOTS
    ensures f.table[i].addrs[NDIRECT] < |f.d|
    ensures Addr(SetEntry(f, i, k, b), j, m) == if (j, m) == (i, k) then b else Addr(f, j, m)
  {
    hide Word, SetWord, BitsOk;
    var ind := f.table[i].addrs[NDIRECT];
    assert Addr(f, i, NDIRECT) == ind;
    if m > NDIRECT && f.table[j].addrs[NDIRECT] == ind {
      assert Addr(f, j, NDIRECT) == ind;
      WordSetWord(f.d[ind], k - NDIRECT - 1, b, m - NDIRECT - 1);
    }
  }

  lemma IndirectOwned(sb: Super, f: Fs, i: nat)
    requires SlotsOwn(f, {}) && OwnersPoint(sb, f, {})
    requires i in f.table && f.table[i].addrs[NDIRECT] != 0
    ensures var ind := f.table[i].addrs[NDIRECT]; ind in f.owner && sb.Data(ind) && Indirect(f, ind)
  {
    assert Addr(f, i, NDIRECT) == f.table[i].addrs[NDIRECT];
  }

  /** A loose block goes into an empty entry of the indirect block of inode i. */
  lemma AttachEntryInv(sb: Super, f: Fs, b: Uint32, i: nat, k: nat)
    requires FsInv(sb, f, {b}, {})
    requires i in f.table && NDIRECT < k < SLOTS && f.table[i].addrs[NDIRECT] != 0 && Addr(f, i, k) == 0
    ensures f.table[i].addrs[NDIRECT] < |f.d|
    ensures FsInv(sb, SetEntry(f, i, k, b).(owner := f.owner[b := (i, k)]), {}, {})
    ensures forall j: nat, m: nat :: j in f.table && m < SLOTS ==>
              Addr(SetEntry(f, i, k, b), j, m) == if (j, m) == (i, k) then b else Addr(f, j, m)
  {
    hide Word, SetWord, BitOf, SlotAddr;
    var ind := f.table[i].addrs[NDIRECT];
    IndirectOwned(sb, f, i);
    var f' := SetEntry(f, i, k, b).(owner := f.owner[b := (i, k)]);
    forall j: nat, m: nat | j in f.table && m < SLOTS
      ensures Addr(f', j, m) == if (j, m) == (i, k) then b else Addr(f, j, m)
    {
      EntryAddr(sb, f, b, i, k, j, m);
    }
    forall c: nat | c < sb.size
      ensures Bit(sb, f'.d, c) == Bit(sb, f.d, c)
    {
      assert sb.BBlock(c) < sb.DataStart();
    }
  }

  /** bfree's write. */
  function Freed(sb: Super, d: Disk, b: nat): Disk
    requires sb.Ok() && |d| == sb.size && b < sb.size && Bit(sb, d, b)
  {
    d[sb.BBlock(b) := ClearBit(At(d, sb.BBlock(b)), b % BPB)]
  }

  lemma BitFreed(sb: Super, d: Disk, b: nat, c: nat)
    requires sb.Ok() && |d| == sb.size && b < sb.size && Bit(sb, d, b) && c < sb.size
    ensures Bit(sb, Freed(sb, d, b), c) == (c != b && Bit(sb, d, c))
  {
    BitOfClearBit(At(d, sb.BBlock(b)), b % BPB, c % BPB);
    assert c / BPB == b / BPB && c % BPB == b % BPB ==> c == b;
  }

  lemma FreedIs(sb: Super, d: Disk, b: nat)
    requires sb.Ok() && |d| == sb.size && b < sb.size && Bit(sb, d, b)
    ensures |Freed(sb, d, b)| == |d|
    ensures forall c: nat :: c < sb.size ==> (Bit(sb, Freed(sb, d, b), c) <==> c != b && Bit(sb, d, c))
    ensures forall c: nat :: c < |d| && c != sb.bmapstart + b / 4096 ==> Freed(sb, d, b)[c] == d[c]
  {
    forall c: nat | c < sb.size
      ensures Bit(sb, Freed(sb, d, b), c) == (c != b && Bit(sb, d, c))
    {
      BitFreed(sb, d, b, c);
    }
  }

  lemma FreeBits(sb: Super, f: Fs, skip: set<(nat, nat)>, b: nat)
    requires FsInv(sb, f, {}, skip) && b in f.owner
    ensures b < sb.size && Bit(sb, f.d, b) && |Freed(sb, f.d, b)| == |f.d|
    ensures BitsOk(sb, f.(d := Freed(sb, f.d, b), owner := f.owner - {b}), {})
    ensures forall c: nat :: Indirect(f, c) ==> At(Freed(sb, f.d, b), c) == At(f.d, c)
  {
    hide BitOf, ClearBit, SlotsOwn, Addr;
    OwnerIsData(sb, f, b, skip);
    forall c: nat | c < sb.size
      ensures Bit(sb, Freed(sb, f.d, b), c) == (c != b && Bit(sb, f.d, c))
    {
      BitFreed(sb, f.d, b, c);
    }
    forall c: nat | Indirect(f, c)
      ensures At(Freed(sb, f.d, b), c) == At(f.d, c)
    {
      OwnerIsData(sb, f, c, skip);
    }
  }

  /** Freeing the block in slot (i, k), whose number the slot still holds. */
  lemma FreeInv(sb: Super, f: Fs, skip: set<(nat, nat)>, i: nat, k: nat)
    requires FsInv(sb, f, {}, skip) && i in f.table && k < SLOTS && (i, k) !in skip && Addr(f, i, k) != 0
    ensures var b := Addr(f, i, k);
            && b < sb.size && Bit(sb, f.d, b) && |Freed(sb, f.d, b)| == |f.d|
            && var f' := f.(d := Freed(sb, f.d, b), owner := f.owner - {b as nat});
               && SlotsOwn(f', skip + {(i, k)}) && OwnersPoint(sb, f', skip + {(i, k)}) && BitsOk(sb, f', {})
               && forall j: nat, m: nat :: j in f.table && m < SLOTS ==> Addr(f', j, m) == Addr(f, j, m)
  {
    hide Bit, BitsOk, Freed;
    var b := Addr(f, i, k);
    FreeBits(sb, f, skip, b);
    var f' := f.(d := Freed(sb, f.d, b), owner := f.owner - {b as nat});
    forall j: nat, m: nat | j in f.table && m < SLOTS
      ensures Addr(f', j, m) == Addr(f, j, m)
    {
      SlotsFrame(sb, f, {}, skip, f'.d, j, m);
    }
    hide Addr;
  }

  lemma FreeEntryInv(sb: Super, f: Fs, skip: set<(nat, nat)>, i: nat, k: nat)
    requires FsInv(sb, f, {}, skip) && i in f.table && NDIRECT < k < SLOTS
    requires (i, k) !in skip && Addr(f, i, k) != 0
    ensures var b := Addr(f, i, k);
            && b < sb.size && Bit(sb, f.d, b)
            && FsInv(sb, f.(d := Freed(sb, f.d, b), owner := f.owner - {b as nat}), {}, skip + {(i, k)})
  {
    hide SlotsOwn, OwnersPoint, BitsOk, Bit;
    FreeInv(sb, f, skip, i, k);
  }

  /** Zeroing address k once its block, and every block listed in it, is freed. */
  lemma ZeroAddr(sb: Super, g: Fs, skip: set<(nat, nat)>, i: nat, k: nat)
    requires SlotsOwn(g, skip) && OwnersPoint(sb, g, skip) && sb.Ok()
    requires i in g.table && k <= NDIRECT && (i, k) in skip
    requires forall s :: s in skip ==> s == (i, k) || (s.0 == i && k == NDIRECT && s.1 > NDIRECT)
    requires k == NDIRECT ==> forall m: nat :: NDIRECT < m < SLOTS && Addr(g, i, m) != 0 ==> (i, m) in skip
    ensures var f' := SetAddr(g, i, k, 0);
            && SlotsOwn(f', {}) && OwnersPoint(sb, f', {})
            && forall j: nat, m: nat ::
                 j in g.table && m < SLOTS && (j != i || (m != k && (k < NDIRECT || m < NDIRECT))) ==>
                 Addr(f', j, m) == Addr(g, j, m)
  {
    hide Word;
    var f' := SetAddr(g, i, k, 0);
    forall j: nat, m: nat | j in g.table && m < SLOTS
      ensures Addr(f', j, m) ==
              if j == i && (m == k || (k == NDIRECT && m > NDIRECT)) then 0 else Addr(g, j, m)
    {
    }
  }

  /** Freeing an address of inode i: for the indirect address all its entries are freed before. */
  lemma FreeAddrInv(sb: Super, f: Fs, skip: set<(nat, nat)>, i: nat, k: nat)
    requires FsInv(sb, f, {}, skip) && i in f.table && k <= NDIRECT && Addr(f, i, k) != 0
    requires forall s :: s in skip ==> s.0 == i && k == NDIRECT
    requires k == NDIRECT ==> forall m: nat :: NDIRECT < m < SLOTS && Addr(f, i, m) != 0 ==> (i, m) in skip
    ensures var b := Addr(f, i, k);
            && b < sb.size && Bit(sb, f.d, b)
            && var f' := SetAddr(f.(d := Freed(sb, f.d, b), owner := f.owner - {b as nat}), i, k, 0);
               && FsInv(sb, f', {}, {})
               && forall j: nat, m: nat ::
                    j in f.table && m < SLOTS && (j != i || (m != k && (k < NDIRECT || m < NDIRECT))) ==>
                    Addr(f', j, m) == Addr(f, j, m)
  {
    hide BitsOk, Bit, Freed, Addr, SlotsOwn, OwnersPoint;
    FreeInv(sb, f, skip, i, k);
    var b := Addr(f, i, k);
    var g := f.(d := Freed(sb, f.d, b), owner := f.owner - {b as nat});
    ZeroAddr(sb, g, skip + {(i, k)}, i, k);
    BitsOkOwner(sb, g, SetAddr(g, i, k, 0));
  }

  lemma BitsOkOwner(sb: Super, f: Fs, f': Fs)
    requires BitsOk(sb, f, {}) && f'.d == f.d && f'.owner == f.owner
    ensures BitsOk(sb, f', {})
  {
  }

  // ----- Inodes on disk -----

  function Encode(v: Meta): (ws: seq<Uint32>)
    ensures |ws| == 16
  {
    [v.kind + 0x1_0000 * v.major, v.minor + 0x1_0000 * v.nlink, v.size] + v.addrs
  }

  /** Word k of the 16 words of inode i in its inode block. */
  function InodeWord(sb: Super, d: Disk, i: nat, k: nat): Uint32
    requires k < 16
  {
    Word(At(d, sb.IBlock(i)), 16 * (i % IPB) + k)
  }

  /** What a reader of the disk finds for inode i: eight inodes to a block, 64 bytes each, in the order
      type, major, minor and nlink, 16 bits each, then the size and 13 addresses. */
  function DiskMeta(sb: Super, d: Disk, i: nat): Meta {
    var b, w := At(d, sb.inodestart + i / 8), 16 * (i % 8);
    Meta(Word(b, w) % 0x1_0000, Word(b, w) / 0x1_0000, Word(b, w + 1) % 0x1_0000, Word(b, w + 1) / 0x1_0000,
         Word(b, w + 2),
         [Word(b, w + 3), Word(b, w + 4), Word(b, w + 5), Word(b, w + 6), Word(b, w + 7), Word(b, w + 8),
          Word(b, w + 9), Word(b, w + 10), Word(b, w + 11), Word(b, w + 12), Word(b, w + 13), Word(b, w + 14),
          Word(b, w + 15)])
  }

  /** The inode on disk is v. */
  ghost predicate SyncedAs(sb: Super, d: Disk, i: nat, v: Meta) {
    DiskMeta(sb, d, i) == v
  }

  /** The words decide what is read. */
  lemma MetaOfWords(sb: Super, d: Disk, i: nat, v: Meta)
    requires forall k: nat :: k < 16 ==> InodeWord(sb, d, i, k) == Encode(v)[k]
    ensures DiskMeta(sb, d, i) == v
  {
    hide Word;
    var w := 16 * (i % 8);
    assert InodeWord(sb, d, i, 0) == v.kind + 0x1_0000 * v.major;
    assert InodeWord(sb, d, i, 1) == v.minor + 0x1_0000 * v.nlink;
    assert InodeWord(sb, d, i, 2) == v.size;
    assert forall k: nat :: k < 13 ==> InodeWord(sb, d, i, 3 + k) == v.addrs[k];
    assert DiskMeta(sb, d, i).addrs == v.addrs;
  }

  lemma MetaFrame(sb: Super, d: Disk, d': Disk, i: nat)
    requires forall k: nat :: k < 16 ==> InodeWord(sb, d', i, k) == InodeWord(sb, d, i, k)
    ensures DiskMeta(sb, d', i) == DiskMeta(sb, d, i)
  {
    hide Word;
    forall k: nat | k < 13
      ensures DiskMeta(sb, d', i).addrs[k] == DiskMeta(sb, d, i).addrs[k]
    {
      assert InodeWord(sb, d', i, 3 + k) == InodeWord(sb, d, i, 3 + k);
    }
    assert InodeWord(sb, d', i, 0) == InodeWord(sb, d, i, 0);
    assert InodeWord(sb, d', i, 1) == InodeWord(sb, d, i, 1);
    assert InodeWord(sb, d', i, 2) == InodeWord(sb, d, i, 2);
    assert DiskMeta(sb, d', i).addrs == DiskMeta(sb, d, i).addrs;
  }

  /** iupdate's write. */
  function Updated(sb: Super, d: Disk, i: nat, v: Meta): Disk
    requires sb.Ok() && |d| == sb.size && i < sb.ninodes
  {
    d[sb.IBlock(i) := PutWords(At(d, sb.IBlock(i)), 16 * (i % IPB), Encode(v))]
  }

  lemma UpdatedWord(sb: Super, d: Disk, i: nat, v: Meta, j: nat, k: nat)
    requires sb.Ok() && |d| == sb.size && i < sb.ninodes && j < sb.ninodes && k < 16
    ensures InodeWord(sb, Updated(sb, d, i, v), j, k) ==
            if j == i then Encode(v)[k] else InodeWord(sb, d, j, k)
  {
    hide PutWords, Word;
    WordPutWords(At(d, sb.IBlock(i)), 16 * (i % IPB), Encode(v), 16 * (j % IPB) + k);
    assert j / IPB == i / IPB && j % IPB == i % IPB ==> j == i;
  }

  lemma UpdateInv(sb: Super, f: Fs, i: nat, v: Meta)
    requires FsInv(sb, f, {}, {}) && i in f.table
    ensures FsInv(sb, f.(d := Updated(sb, f.d, i, v)), {}, {})
    ensures forall j: nat, m: nat :: j in f.table && m < SLOTS ==>
              Addr(f.(d := Updated(sb, f.d, i, v)), j, m) == Addr(f, j, m)
  {
    hide PutWords, Encode, BitOf, SlotsOwn, Addr;
    var d' := Updated(sb, f.d, i, v);
    assert sb.IBlock(i) < sb.bmapstart;
    assert forall b: nat :: b != sb.IBlock(i) ==> At(d', b) == At(f.d, b);
    forall c: nat | c < sb.size
      ensures Bit(sb, d', c) == Bit(sb, f.d, c)
    {
    }
    forall b: nat | Indirect(f, b)
      ensures At(d', b) == At(f.d, b)
    {
      OwnerIsData(sb, f, b, {});
    }
    DiskFrame(sb, f, {}, {}, d', {});
    forall j: nat, m: nat | j in f.table && m < SLOTS
      ensures Addr(f.(d := d'), j, m) == Addr(f, j, m)
    {
      SlotsFrame(sb, f, {}, {}, d', j, m);
    }
  }

  // ----- File contents -----

  predicate Mapped(f: Fs, i: nat, bn: nat)
    requires i in f.table
  {
    bn < MAXFILE && Addr(f, i, FileSlot(bn)) != 0
  }

  function FileByte(f: Fs, i: nat, x: nat): Byte
    requires i in f.table && x < MAXFILE * BSIZE
  {
    At(f.d, Addr(f, i, FileSlot(x / BSIZE)))[x % BSIZE]
  }

  ghost predicate NoHoles(f: Fs, i: nat)
    requires i in f.table
  {
    f.table[i].size <= MAXFILE * BSIZE &&
    forall bn: nat :: bn * BSIZE < f.table[i].size ==> Mapped(f, i, bn)
  }

  /** The flat byte array a file without holes stands for. */
  function Contents(f: Fs, i: nat): (c: seq<Byte>)
    requires i in f.table && f.table[i].size <= MAXFILE * BSIZE
    ensures |c| == f.table[i].size
  {
    seq(f.table[i].size, x requires 0 <= x < f.table[i].size => FileByte(f, i, x))
  }

  /** Byte x of file i, found on the disk alone: twelve direct blocks, then those the indirect one lists. */
  function DiskByte(sb: Super, d: Disk, i: nat, x: nat): Byte
    requires x < MAXFILE * BSIZE
  {
    var addrs, bn := DiskMeta(sb, d, i).addrs, x / 512;
    var b := if bn < 12 then addrs[bn] else Word(At(d, addrs[12]), bn - 12);
    At(d, b)[x % 512]
  }

  /** What a file stands for is what a reader finds on the disk. */
  lemma ContentsOnDisk(sb: Super, f: Fs, i: nat)
    requires i in f.table && NoHoles(f, i) && SyncedAs(sb, f.d, i, f.table[i])
    ensures DiskMeta(sb, f.d, i).size == |Contents(f, i)| <= MAXFILE * BSIZE
    ensures forall x: nat :: x < |Contents(f, i)| ==> Contents(f, i)[x] == DiskByte(sb, f.d, i, x)
  {
    hide DiskMeta, Word;
    forall x: nat | x < f.table[i].size
      ensures FileByte(f, i, x) == DiskByte(sb, f.d, i, x)
    {
      assert x / BSIZE * BSIZE < f.table[i].size;
      assert Mapped(f, i, x / BSIZE);
    }
  }

  /** Inode j and every byte its blocks hold are the same in f' as in f. */
  ghost predicate SameFile(f: Fs, f': Fs, j: nat)
    requires j in f.table
  {
    && j in f'.table && f'.table[j] == f.table[j]
    && (forall k: nat :: k < SLOTS ==> Addr(f', j, k) == Addr(f, j, k))
    && (forall x: nat :: x < MAXFILE * BSIZE && Mapped(f, j, x / BSIZE) ==> FileByte(f', j, x) == FileByte(f, j, x))
  }

  /** Two slots with the same block are the same slot. */
  lemma SlotsInjective(sb: Super, f: Fs, i: nat, k: nat, j: nat, m: nat)
    requires FsInv(sb, f, {}, {}) && i in f.table && j in f.table && k < SLOTS && m < SLOTS
    requires Addr(f, i, k) == Addr(f, j, m) != 0
    ensures i == j && k == m
  {
  }

  ghost predicate HoldsBlock(f: Fs, i: nat, k: nat, b: nat) {
    i in f.table && k < SLOTS && Addr(f, i, k) == b
  }

  /** Conservation: the bitmap marks a data block exactly when one slot of one inode holds it. */
  lemma Conservation(sb: Super, f: Fs, b: nat)
    requires FsInv(sb, f, {}, {}) && sb.Data(b)
    ensures Bit(sb, f.d, b) <==> exists i, k :: HoldsBlock(f, i, k, b)
    ensures forall i, k, j, m :: HoldsBlock(f, i, k, b) && HoldsBlock(f, j, m, b) ==> i == j && k == m
  {
    hide SlotAddr, Bit;
    if b in f.owner {
      assert HoldsBlock(f, f.owner[b].0, f.owner[b].1, b);
    }
    forall i, k, j, m | HoldsBlock(f, i, k, b) && HoldsBlock(f, j, m, b)
      ensures i == j && k == m
    {
      SlotsInjective(sb, f, i, k, j, m);
    }
  }

  /** Writing a file's block changes that block of that file and no other byte of any file. */
  lemma WriteInv(sb: Super, f: Fs, i: nat, bn: nat, v: Block)
    requires FsInv(sb, f, {}, {}) && i in f.table && Mapped(f, i, bn)
    ensures Addr(f, i, FileSlot(bn)) < |f.d|
    ensures var f' := f.(d := f.d[Addr(f, i, FileSlot(bn)) := v]);
            && FsInv(sb, f', {}, {})
            && (forall j: nat, m: nat :: j in f.table && m < SLOTS ==> Addr(f', j, m) == Addr(f, j, m))
  {
    hide Word, BitOf, SlotsOwn, Addr;
    var b := Addr(f, i, FileSlot(bn));
    assert sb.Data(b) && !Indirect(f, b) by { SlotOwner(sb, f, i, FileSlot(bn)); }
    var d' := f.d[b := v];
    forall c: nat | c < sb.size
      ensures Bit(sb, d', c) == Bit(sb, f.d, c)
    {
      assert sb.BBlock(c) < sb.DataStart();
    }
    DiskFrame(sb, f, {}, {}, d', {});
    forall j: nat, m: nat | j in f.table && m < SLOTS
      ensures Addr(f.(d := d'), j, m) == Addr(f, j, m)
    {
      SlotsFrame(sb, f, {}, {}, d', j, m);
    }
  }

  lemma SlotOwner(sb: Super, f: Fs, i: nat, k: nat)
    requires FsInv(sb, f, {}, {}) && i in f.table && k < SLOTS && Addr(f, i, k) != 0
    ensures var b := Addr(f, i, k); b in f.owner && f.owner[b] == (i, k) && sb.Data(b) && Bit(sb, f.d, b)
  {
  }

  lemma WriteBytes(sb: Super, f: Fs, i: nat, bn: nat, v: Block, j: nat, x: nat)
    requires FsInv(sb, f, {}, {}) && i in f.table && j in f.table && Mapped(f, i, bn)
    requires Addr(f, i, FileSlot(bn)) < |f.d| && x < MAXFILE * BSIZE && Mapped(f, j, x / BSIZE)
    ensures var f' := f.(d := f.d[Addr(f, i, FileSlot(bn)) := v]);
            FileByte(f', j, x) == if j == i && x / BSIZE == bn then v[x % BSIZE] else FileByte(f, j, x)
  {
    hide Word, BitOf;
    WriteInv(sb, f, i, bn, v);
    if Addr(f, j, FileSlot(x / BSIZE)) == Addr(f, i, FileSlot(bn)) {
      SlotsInjective(sb, f, i, FileSlot(bn), j, FileSlot(x / BSIZE));
    }
  }

  // ----- What bmap may do -----

  /** From f to f' inode i may gain blocks. Nothing allocated before moves or changes, except
      that the indirect block of i gains entries; inode blocks do not change at all. */
  ghost predicate Grown(sb: Super, f: Fs, f': Fs, i: nat) {
    && |f'.d| == |f.d| && i in f.table && f'.table.Keys == f.table.Keys
    && f'.table[i] == f.table[i].(addrs := f'.table[i].addrs)
    && (forall j :: j in f.table && j != i ==> f'.table[j] == f.table[j])
    && (forall j: nat, k: nat :: j in f.table && k < SLOTS ==>
         Addr(f', j, k) == Addr(f, j, k) || (j == i && Addr(f, j, k) == 0))
    && (forall b :: b in f.owner ==> b in f'.owner && f'.owner[b] == f.owner[b])
    && (forall b: nat :: b in f.owner && !Indirect(f, b) ==> At(f'.d, b) == At(f.d, b))
    && (forall b: nat :: b < sb.bmapstart ==> At(f'.d, b) == At(f.d, b))
  }

  lemma GrownTrans(sb: Super, f: Fs, g: Fs, h: Fs, i: nat)
    requires Grown(sb, f, g, i) && Grown(sb, g, h, i)
    ensures Grown(sb, f, h, i)
  {
    hide Addr;
  }

  lemma GrownRefl(sb: Super, f: Fs, i: nat)
    requires i in f.table
    ensures Grown(sb, f, f, i)
  {
  }

  /** A direct or indirect address of inode i is given a fresh zeroed block. */
  lemma GrowAddr(sb: Super, f: Fs, b: Uint32, i: nat, k: nat)
    requires FsInv(sb, f, {}, {}) && sb.Data(b) && !Bit(sb, f.d, b)
    requires i in f.table && k <= NDIRECT && f.table[i].addrs[k] == 0
    ensures var f' := SetAddr(f.(d := Allocated(sb, f.d, b)), i, k, b).(owner := f.owner[b := (i, k)]);
            FsInv(sb, f', {}, {}) && Grown(sb, f, f', i) && Addr(f', i, k) == b && At(f'.d, b) == ZeroBlock()
  {
    hide BitOf, SetBit, BitsOk, Bit, SlotAddr;
    var g := f.(d := Allocated(sb, f.d, b));
    assert b !in f.owner by { BitOfOwner(sb, f, b); }
    AllocInv(sb, f, {}, b);
    assert {b as nat} == {} + {b as nat};
    AllocKeeps(sb, f, b);
    AttachInv(sb, g, b, i, k);
    AddrOf(SetAddr(g, i, k, b), i, k);
    var f' := SetAddr(g, i, k, b).(owner := f.owner[b := (i, k)]);
    AddrOf(f', i, k);
    AddrOf(f, i, k);
    forall j: nat, m: nat | j in f.table && m < SLOTS
      ensures Addr(f', j, m) == Addr(f, j, m) || (j == i && Addr(f, j, m) == 0)
    {
      if (j, m) != (i, k) {
        AddrOfOwner(SetAddr(g, i, k, b), f'.owner, j, m);
      }
    }
  }

  lemma AddrOf(f: Fs, i: nat, k: nat)
    requires i in f.table && k <= NDIRECT
    ensures Addr(f, i, k) == f.table[i].addrs[k]
  {
  }

  lemma AddrOfOwner(f: Fs, owner: map<nat, (nat, nat)>, i: nat, k: nat)
    requires i in f.table && k < SLOTS
    ensures Addr(f.(owner := owner), i, k) == Addr(f, i, k)
  {
  }

  lemma BitOfOwner(sb: Super, f: Fs, b: nat)
    requires FsInv(sb, f, {}, {}) && b < sb.size && !Bit(sb, f.d, b)
    ensures b !in f.owner
  {
  }

  lemma AllocKeeps(sb: Super, f: Fs, b: nat)
    requires FsInv(sb, f, {}, {}) && sb.Data(b) && !Bit(sb, f.d, b)
    ensures var d' := Allocated(sb, f.d, b);
            && |d'| == |f.d|
            && (forall c :: c in f.owner ==> At(d', c) == At(f.d, c))
            && (forall c: nat :: c < sb.bmapstart ==> At(d', c) == At(f.d, c))
            && At(d', b) == ZeroBlock()
            && forall j: nat, k: nat :: j in f.table && k < SLOTS ==> Addr(f.(d := d'), j, k) == Addr(f, j, k)
  {
    hide BitOf, SetBit, SlotsOwn, Addr;
    var d' := Allocated(sb, f.d, b);
    assert sb.BBlock(b) < sb.DataStart();
    forall c | c in f.owner
      ensures At(d', c) == At(f.d, c)
    {
      OwnerIsData(sb, f, c, {});
      BitOfOwner(sb, f, b);
    }
    forall j: nat, k: nat | j in f.table && k < SLOTS
      ensures Addr(f.(d := d'), j, k) == Addr(f, j, k)
    {
      SlotsFrame(sb, f, {}, {}, d', j, k);
    }
  }

  lemma GrowEntryInv(sb: Super, f: Fs, b: Uint32, i: nat, k: nat)
    requires FsInv(sb, f, {}, {}) && sb.Data(b) && !Bit(sb, f.d, b)
    requires i in f.table && NDIRECT < k < SLOTS && f.table[i].addrs[NDIRECT] != 0 && Addr(f, i, k) == 0
    ensures f.table[i].addrs[NDIRECT] < |f.d| && |Allocated(sb, f.d, b)| == |f.d| && b !in f.owner
    ensures var f' := SetEntry(f.(d := Allocated(sb, f.d, b)), i, k, b).(owner := f.owner[b := (i, k)]);
            && FsInv(sb, f', {}, {})
            && forall j: nat, m: nat :: j in f.table && m < SLOTS ==>
                 Addr(f', j, m) == if (j, m) == (i, k) then b else Addr(f, j, m)
  {
    hide BitOf, SetBit, SetWord, BitsOk, Bit, SlotAddr, Allocated;
    var g := f.(d := Allocated(sb, f.d, b));
    BitOfOwner(sb, f, b);
    AllocInv(sb, f, {}, b);
    assert {b as nat} == {} + {b as nat};
    AllocKeeps(sb, f, b);
    IndirectOwned(sb, f, i);
    AttachEntryInv(sb, g, b, i, k);
    hide FsInv, SetEntry;
    var f' := SetEntry(g, i, k, b).(owner := f.owner[b := (i, k)]);
    forall j: nat, m: nat | j in f.table && m < SLOTS
      ensures Addr(f', j, m) == if (j, m) == (i, k) then b else Addr(f, j, m)
    {
      AddrOfOwner(SetEntry(g, i, k, b), f'.owner, j, m);
    }
  }

  /** An entry of the indirect block of inode i is given a fresh zeroed block. */
  lemma GrowEntry(sb: Super, f: Fs, b: Uint32, i: nat, k: nat)
    requires FsInv(sb, f, {}, {}) && sb.Data(b) && !Bit(sb, f.d, b)
    requires i in f.table && NDIRECT < k < SLOTS && f.table[i].addrs[NDIRECT] != 0 && Addr(f, i, k) == 0
    ensures var ind := f.table[i].addrs[NDIRECT];
            && ind < |f.d| && At(Allocated(sb, f.d, b), ind) == At(f.d, ind)
            && var f' := SetEntry(f.(d := Allocated(sb, f.d, b)), i, k, b).(owner := f.owner[b := (i, k)]);
               FsInv(sb, f', {}, {}) && Grown(sb, f, f', i) && Addr(f', i, k) == b && f'.table == f.table
  {
    hide BitOf, SetBit, SetWord, BitsOk, Bit, SlotAddr, Allocated, Addr;
    AllocKeeps(sb, f, b);
    IndirectOwned(sb, f, i);
    GrowEntryInv(sb, f, b, i, k);
    hide FsInv;
  }

  /** A byte of a mapped block keeps its place and value. */
  lemma GrownByte(sb: Super, f: Fs, f': Fs, i: nat, j: nat, x: nat)
    requires FsInv(sb, f, {}, {}) && Grown(sb, f, f', i)
    requires j in f.table && x < MAXFILE * BSIZE && Mapped(f, j, x / BSIZE)
    ensures Mapped(f', j, x / BSIZE) && FileByte(f', j, x) == FileByte(f, j, x)
  {
    hide SlotAddr, Bit;
    SlotOwner(sb, f, j, FileSlot(x / BSIZE));
  }

  // ----- What writei has done after tot bytes -----

  ghost predicate Wrote(sb: Super, f: Fs, f': Fs, i: nat, off: nat, src: seq<Byte>, tot: nat) {
    && tot <= |src| && off + tot <= MAXFILE * BSIZE && |f'.d| == |f.d|
    && i in f.table && f'.table.Keys == f.table.Keys
    && f'.table[i] == f.table[i].(addrs := f'.table[i].addrs)
    && (forall j :: j in f.table && j != i ==> SameFile(f, f', j))
    && (forall x: nat :: off <= x < off + tot ==> Mapped(f', i, x / BSIZE) && FileByte(f', i, x) == src[x - off])
    && (forall x: nat :: x < MAXFILE * BSIZE && !(off <= x < off + tot) && Mapped(f, i, x / BSIZE) ==>
         Mapped(f', i, x / BSIZE) && FileByte(f', i, x) == FileByte(f, i, x))
    && (forall b: nat :: b < sb.bmapstart ==> At(f'.d, b) == At(f.d, b))
  }

  /** bmap, seen through the bytes of the files. */
  lemma WroteGrow(sb: Super, f: Fs, g: Fs, h: Fs, i: nat, off: nat, src: seq<Byte>, tot: nat)
    requires FsInv(sb, g, {}, {}) && Wrote(sb, f, g, i, off, src, tot) && Grown(sb, g, h, i)
    ensures Wrote(sb, f, h, i, off, src, tot)
  {
    hide Addr, FsInv;
    forall j: nat, x: nat | j in g.table && x < MAXFILE * BSIZE && Mapped(g, j, x / BSIZE)
      ensures Mapped(h, j, x / BSIZE) && FileByte(h, j, x) == FileByte(g, j, x)
    {
      GrownByte(sb, g, h, i, j, x);
    }
  }

  function Min(a: nat, b: nat): nat {
    if a < b then a else b
  }

  /** The next block of the file with its part of src moved in. */
  function Patched(was: Block, o: nat, part: seq<Byte>): Block
    requires o + |part| <= BSIZE
  {
    was[..o] + part + was[o + |part|..]
  }

  lemma WroteBlock(sb: Super, f: Fs, h: Fs, i: nat, off: nat, src: seq<Byte>, tot: nat, m: nat)
    requires FsInv(sb, h, {}, {}) && Wrote(sb, f, h, i, off, src, tot)
    requires off + tot < MAXFILE * BSIZE && Mapped(h, i, (off + tot) / BSIZE)
    requires tot + m <= |src| && (off + tot) % BSIZE + m <= BSIZE && off + tot + m <= MAXFILE * BSIZE
    ensures Addr(h, i, FileSlot((off + tot) / BSIZE)) < |h.d|
    ensures var addr := Addr(h, i, FileSlot((off + tot) / BSIZE));
            var v := Patched(At(h.d, addr), (off + tot) % BSIZE, src[tot..tot + m]);
            var h' := h.(d := h.d[addr := v]);
            FsInv(sb, h', {}, {}) && Wrote(sb, f, h', i, off, src, tot + m)
  {
    hide Addr, FsInv;
    var at, bn := off + tot, (off + tot) / BSIZE;
    var addr := Addr(h, i, FileSlot(bn));
    WriteInv(sb, h, i, bn, ZeroBlock());
    var v := Patched(At(h.d, addr), at % BSIZE, src[tot..tot + m]);
    WriteInv(sb, h, i, bn, v);
    var h' := h.(d := h.d[addr := v]);
    assert sb.Data(addr) by { SlotOwner(sb, h, i, FileSlot(bn)); }
    forall j: nat, x: nat | j in h.table && x < MAXFILE * BSIZE && Mapped(h, j, x / BSIZE)
      ensures Mapped(h', j, x / BSIZE)
      ensures FileByte(h', j, x) == if j == i && at <= x < at + m then src[x - off] else FileByte(h, j, x)
    {
      WriteBytes(sb, h, i, bn, v, j, x);
      if j == i && x / BSIZE == bn {
        assert FileByte(h, i, x) == At(h.d, addr)[x % BSIZE];
      }
    }
  }

  /** was with src written over it from off on. */
  function Splice(was: seq<Byte>, off: nat, src: seq<Byte>): seq<Byte>
    requires off <= |was|
  {
    was[..off] + src + if off + |src| < |was| then was[off + |src|..] else []
  }

  lemma WroteAll(sb: Super, f: Fs, h: Fs, h': Fs, i: nat, off: nat, src: seq<Byte>)
    requires i in f.table && NoHoles(f, i) && off <= f.table[i].size && off + |src| < UINT32
    requires Wrote(sb, f, h, i, off, src, |src|)
    requires h'.d == h.d && i in h'.table
    requires h'.table[i] == h.table[i].(size := if off + |src| > f.table[i].size then off + |src| else f.table[i].size)
    ensures NoHoles(h', i) && Contents(h', i) == Splice(Contents(f, i), off, src)
  {
    hide SlotAddr, FileSlot;
    var n := h'.table[i].size;
    forall x: nat | x < n
      ensures Mapped(h', i, x / BSIZE)
      ensures FileByte(h', i, x) == Splice(Contents(f, i), off, src)[x]
    {
      WroteByte(sb, f, h, i, off, src, x);
      assert Mapped(h', i, x / BSIZE) && FileByte(h', i, x) == FileByte(h, i, x);
    }
    forall bn: nat | bn * BSIZE < n
      ensures Mapped(h', i, bn)
    {
      assert bn * BSIZE / BSIZE == bn;
    }
    assert Contents(h', i) == Splice(Contents(f, i), off, src);
  }

  lemma WroteByte(sb: Super, f: Fs, h: Fs, i: nat, off: nat, src: seq<Byte>, x: nat)
    requires i in f.table && NoHoles(f, i) && off <= f.table[i].size
    requires Wrote(sb, f, h, i, off, src, |src|)
    requires x < f.table[i].size || x < off + |src|
    ensures Mapped(h, i, x / BSIZE)
    ensures FileByte(h, i, x) == Splice(Contents(f, i), off, src)[x]
  {
    hide Addr, FileByte;
    if off <= x < off + |src| {
      assert Mapped(h, i, x / BSIZE);
    } else {
      assert x / BSIZE * BSIZE < f.table[i].size;
      assert Mapped(f, i, x / BSIZE);
    }
  }

  lemma {:induction false} WroteNothing(sb: Super, f: Fs, i: nat, off: nat, src: seq<Byte>)
    requires i in f.table && off <= MAXFILE * BSIZE
    ensures Wrote(sb, f, f, i, off, src, 0)
  {
  }

  /** Changing other fields of an inode than its addresses. */
  lemma ResizeInv(sb: Super, f: Fs, i: nat, v: Meta)
    requires FsInv(sb, f, {}, {}) && i in f.table && v.addrs == f.table[i].addrs
    ensures FsInv(sb, f.(table := f.table[i := v]), {}, {})
    ensures forall j: nat, k: nat :: j in f.table && k < SLOTS ==>
              Addr(f.(table := f.table[i := v]), j, k) == Addr(f, j, k)
  {
    hide SlotAddr, Bit;
    var f' := f.(table := f.table[i := v]);
    forall j: nat, k: nat | j in f.table && k < SLOTS
      ensures Addr(f', j, k) == Addr(f, j, k)
    {
    }
  }

  /** iupdate leaves the bytes of every file alone. */
  lemma UpdateBytes(sb: Super, f: Fs, i: nat, v: Meta, j: nat, x: nat)
    requires FsInv(sb, f, {}, {}) && i in f.table && j in f.table && x < MAXFILE * BSIZE
    requires Mapped(f, j, x / BSIZE)
    ensures var f' := f.(d := Updated(sb, f.d, i, v));
            Mapped(f', j, x / BSIZE) && FileByte(f', j, x) == FileByte(f, j, x)
  {
    hide Addr, PutWords, Encode, SlotsOwn, BitsOk;
    UpdateInv(sb, f, i, v);
    SlotOwner(sb, f, j, FileSlot(x / BSIZE));
    assert sb.IBlock(i) < sb.bmapstart;
  }

  lemma UpdateContents(sb: Super, f: Fs, i: nat, v: Meta)
    requires FsInv(sb, f, {}, {}) && i in f.table && NoHoles(f, i)
    ensures var f' := f.(d := Updated(sb, f.d, i, v));
            NoHoles(f', i) && Contents(f', i) == Contents(f, i)
  {
    hide Addr, Updated, FileByte;
    UpdateInv(sb, f, i, v);
    var f' := f.(d := Updated(sb, f.d, i, v));
    forall x: nat | x < f.table[i].size
      ensures Mapped(f', i, x / BSIZE) && FileByte(f', i, x) == FileByte(f, i, x)
    {
      assert x / BSIZE * BSIZE < f.table[i].size;
      UpdateBytes(sb, f, i, v, i, x);
    }
    forall bn: nat | bn * BSIZE < f.table[i].size
      ensures Mapped(f', i, bn)
    {
      assert bn * BSIZE / BSIZE == bn;
    }
    assert Contents(f', i) == Contents(f, i);
  }

  /** The end of writei when the file grew: new size, then iupdate. */
  lemma GrowSize(sb: Super, f: Fs, h: Fs, i: nat, off: nat, src: seq<Byte>)
    requires FsInv(sb, h, {}, {}) && i in f.table && NoHoles(f, i) && off <= f.table[i].size < off + |src| < UINT32
    requires Wrote(sb, f, h, i, off, src, |src|)
    ensures var v := h.table[i].(size := off + |src|);
            var g := h.(table := h.table[i := v]);
            var k := g.(d := Updated(sb, g.d, i, v));
            && FsInv(sb, g, {}, {}) && FsInv(sb, k, {}, {})
            && NoHoles(k, i) && Contents(k, i) == Splice(Contents(f, i), off, src)
            && forall j :: j in f.table && j != i ==> SameFile(f, k, j)
  {
    hide Addr, Updated, FileByte, Splice;
    var v := h.table[i].(size := off + |src|);
    var g := h.(table := h.table[i := v]);
    ResizeInv(sb, h, i, v);
    WroteAll(sb, f, h, g, i, off, src);
    UpdateContents(sb, g, i, v);
    UpdateInv(sb, g, i, v);
    var k := g.(d := Updated(sb, g.d, i, v));
    hide FsInv, NoHoles, Contents;
    forall j | j in f.table && j != i
      ensures SameFile(f, k, j)
    {
      assert SameFile(f, h, j);
      ResizedOther(sb, f, h, i, v, j);
    }
  }

  /** A new size and iupdate for inode i leave file j alone. */
  lemma ResizedOther(sb: Super, f: Fs, h: Fs, i: nat, v: Meta, j: nat)
    requires FsInv(sb, h, {}, {}) && i in h.table && v.addrs == h.table[i].addrs
    requires j in f.table && j != i && SameFile(f, h, j)
    ensures var g := h.(table := h.table[i := v]);
            i < sb.ninodes && |g.d| == sb.size && sb.Ok() && SameFile(f, g.(d := Updated(sb, g.d, i, v)), j)
  {
    hide Updated;
    var g := h.(table := h.table[i := v]);
    ResizeInv(sb, h, i, v);
    UpdateInv(sb, g, i, v);
    hide FsInv, Addr, FileByte;
    forall x: nat | x < MAXFILE * BSIZE && Mapped(f, j, x / BSIZE)
      ensures FileByte(g.(d := Updated(sb, g.d, i, v)), j, x) == FileByte(f, j, x)
    {
      SameByte(h, g, j, x);
      UpdateBytes(sb, g, i, v, j, x);
    }
  }

  lemma SameByte(f: Fs, f': Fs, j: nat, x: nat)
    requires j in f.table && j in f'.table && f'.table[j] == f.table[j] && f'.d == f.d && x < MAXFILE * BSIZE
    ensures FileByte(f', j, x) == FileByte(f, j, x)
  {
  }

  lemma SyncedFrame(sb: Super, d: Disk, d': Disk, i: nat, v: Meta)
    requires sb.Ok() && i < sb.ninodes && SyncedAs(sb, d, i, v)
    requires forall b: nat :: b < sb.bmapstart ==> At(d', b) == At(d, b)
    ensures SyncedAs(sb, d', i, v)
  {
    hide Word;
    assert sb.IBlock(i) < sb.bmapstart;
    hide DiskMeta;
    MetaFrame(sb, d, d', i);
  }

  lemma SyncedUpdate(sb: Super, d: Disk, i: nat, v: Meta, j: nat, w: Meta)
    requires sb.Ok() && |d| == sb.size && i < sb.ninodes && j < sb.ninodes
    requires if j == i then w == v else SyncedAs(sb, d, j, w)
    ensures SyncedAs(sb, Updated(sb, d, i, v), j, w)
  {
    hide InodeWord, Encode, Updated, DiskMeta;
    var d' := Updated(sb, d, i, v);
    forall k: nat | k < 16
      ensures InodeWord(sb, d', j, k) == if j == i then Encode(v)[k] else InodeWord(sb, d, j, k)
    {
      UpdatedWord(sb, d, i, v, j, k);
    }
    if j == i {
      MetaOfWords(sb, d', j, v);
    } else {
      MetaFrame(sb, d, d', j);
    }
  }

  // ----- What itrunc has done so far -----

  /** The order in which itrunc frees slots: direct addresses, entries, the indirect address. */
  function Rank(k: nat): nat {
    if k < NDIRECT then k else if k == NDIRECT then SLOTS - 1 else k - 1
  }

  /** From f to g exactly the slots of inode i of rank below n have been freed. */
  ghost predicate Truncated(sb: Super, f: Fs, g: Fs, i: nat, n: nat) {
    && |g.d| == |f.d| && i in f.table && g.table.Keys == f.table.Keys
    && g.table[i] == f.table[i].(addrs := g.table[i].addrs)
    && (forall j :: j in f.table && j != i ==> g.table[j] == f.table[j])
    && (forall b :: b in g.owner <==> b in f.owner && !(f.owner[b].0 == i && Rank(f.owner[b].1) < n))
    && (forall b :: b in g.owner ==> g.owner[b] == f.owner[b])
    && (forall j: nat, m: nat :: j in f.table && m < SLOTS && (j != i || Rank(m) >= n) ==>
         Addr(g, j, m) == Addr(f, j, m))
    && (forall m: nat :: m <= NDIRECT && Rank(m) < n ==> g.table[i].addrs[m] == 0)
    && (forall b: nat :: b < sb.bmapstart || sb.DataStart() <= b ==> At(g.d, b) == At(f.d, b))
  }

  lemma TruncatedNone(sb: Super, f: Fs, i: nat)
    requires i in f.table
    ensures Truncated(sb, f, f, i, 0)
  {
  }

  lemma FreedFrame(sb: Super, d: Disk, b: nat, c: nat)
    requires sb.Ok() && |d| == sb.size && b < sb.size && Bit(sb, d, b)
    requires c < sb.bmapstart || sb.DataStart() <= c
    ensures At(Freed(sb, d, b), c) == At(d, c)
  {
    hide ClearBit, BitOf;
    assert sb.bmapstart <= sb.BBlock(b) < sb.DataStart();
  }

  /** An empty slot counts as freed. */
  lemma TruncEmpty(sb: Super, f: Fs, g: Fs, i: nat, skip: set<(nat, nat)>, k: nat)
    requires FsInv(sb, f, {}, {}) && FsInv(sb, g, {}, skip) && k < SLOTS && Truncated(sb, f, g, i, Rank(k))
    requires Addr(g, i, k) == 0
    ensures Truncated(sb, f, g, i, Rank(k) + 1)
    ensures k > NDIRECT ==> FsInv(sb, g, {}, skip + {(i, k)})
  {
    hide SlotAddr, BitsOk;
    AddrOf(g, i, if k <= NDIRECT then k else 0);
    assert Addr(f, i, k) == 0;
    forall b | b in f.owner && f.owner[b].0 == i
      ensures f.owner[b].1 != k
    {
      assert Addr(f, f.owner[b].0, f.owner[b].1) == b && sb.Data(b);
    }
  }

  lemma TruncStep(sb: Super, f: Fs, g: Fs, h: Fs, i: nat, k: nat, b: nat)
    requires Truncated(sb, f, g, i, Rank(k)) && k < SLOTS
    requires forall c :: c in f.owner ==> f.owner[c].1 < SLOTS
    requires b in g.owner && g.owner[b] == (i, k) && h.owner == g.owner - {b}
    requires forall c :: c in g.owner && g.owner[c] == (i, k) ==> c == b
    requires |h.d| == |g.d|
    requires forall c: nat :: c < sb.bmapstart || sb.DataStart() <= c ==> At(h.d, c) == At(g.d, c)
    requires h.table == if k <= NDIRECT then SetAddr(g, i, k, 0).table else g.table
    requires forall j: nat, m: nat :: j in g.table && m < SLOTS && (j != i || Rank(m) > Rank(k)) ==>
               Addr(h, j, m) == Addr(g, j, m)
    ensures Truncated(sb, f, h, i, Rank(k) + 1)
  {
    hide Addr;
    assert h.table.Keys == g.table.Keys;
    forall c ensures c in h.owner <==> c in f.owner && !(f.owner[c].0 == i && Rank(f.owner[c].1) < Rank(k) + 1) {
      if c in f.owner && f.owner[c].0 == i && Rank(f.owner[c].1) == Rank(k) {
        assert f.owner[c].1 == k;
      }
    }
  }

  lemma OwnerSlots(sb: Super, f: Fs)
    requires FsInv(sb, f, {}, {})
    ensures forall c :: c in f.owner ==> f.owner[c].1 < SLOTS
  {
  }

  lemma FreedKeeps(sb: Super, d: Disk, b: nat)
    requires sb.Ok() && |d| == sb.size && b < sb.size && Bit(sb, d, b)
    ensures |Freed(sb, d, b)| == |d|
    ensures forall c: nat :: c < sb.bmapstart || sb.DataStart() <= c ==> At(Freed(sb, d, b), c) == At(d, c)
  {
    hide Freed, Bit;
    forall c: nat | c < sb.bmapstart || sb.DataStart() <= c
      ensures At(Freed(sb, d, b), c) == At(d, c)
    {
      FreedFrame(sb, d, b, c);
    }
    FreedFrame(sb, d, b, 0);
    FreedSize(sb, d, b);
  }

  lemma FreedSize(sb: Super, d: Disk, b: nat)
    requires sb.Ok() && |d| == sb.size && b < sb.size && Bit(sb, d, b)
    ensures |Freed(sb, d, b)| == |d|
  {
  }

  /** bfree of a direct or the indirect block, and zero into its address. */
  lemma TruncAddr(sb: Super, f: Fs, g: Fs, i: nat, skip: set<(nat, nat)>, k: nat)
    requires FsInv(sb, f, {}, {}) && FsInv(sb, g, {}, skip) && k <= NDIRECT && Truncated(sb, f, g, i, Rank(k))
    requires Addr(g, i, k) != 0
    requires forall s :: s in skip <==> s.0 == i && NDIRECT < s.1 < SLOTS && k == NDIRECT
    ensures var b := Addr(g, i, k);
            && b < sb.size && Bit(sb, g.d, b)
            && var h := SetAddr(g.(d := Freed(sb, g.d, b), owner := g.owner - {b as nat}), i, k, 0);
               FsInv(sb, h, {}, {}) && Truncated(sb, f, h, i, Rank(k) + 1)
  {
    hide Addr, BitsOk, SlotsOwn, OwnersPoint, Freed, Bit;
    var b := Addr(g, i, k);
    OwnedOnce(sb, g, skip, i, k);
    FreeAddrInv(sb, g, skip, i, k);
    FreedKeeps(sb, g.d, b);
    var h := SetAddr(g.(d := Freed(sb, g.d, b), owner := g.owner - {b as nat}), i, k, 0);
    OwnerSlots(sb, f);
    TruncStep(sb, f, g, h, i, k, b);
  }

  /** bfree of a block listed in the indirect block. */
  lemma TruncEntry(sb: Super, f: Fs, g: Fs, i: nat, skip: set<(nat, nat)>, k: nat)
    requires FsInv(sb, f, {}, {}) && FsInv(sb, g, {}, skip) && NDIRECT < k < SLOTS
    requires Truncated(sb, f, g, i, Rank(k)) && Addr(g, i, k) != 0 && (i, k) !in skip
    ensures var b := Addr(g, i, k);
            && b < sb.size && Bit(sb, g.d, b)
            && var h := g.(d := Freed(sb, g.d, b), owner := g.owner - {b as nat});
               FsInv(sb, h, {}, skip + {(i, k)}) && Truncated(sb, f, h, i, Rank(k) + 1)
  {
    hide Addr, BitsOk, SlotsOwn, OwnersPoint, Freed, Bit;
    var b := Addr(g, i, k);
    OwnedOnce(sb, g, skip, i, k);
    FreeInv(sb, g, skip, i, k);
    FreeEntryInv(sb, g, skip, i, k);
    FreedKeeps(sb, g.d, b);
    var h := g.(d := Freed(sb, g.d, b), owner := g.owner - {b as nat});
    OwnerSlots(sb, f);
    TruncStep(sb, f, g, h, i, k, b);
  }

  /** Slot (i, k) owns its block and no other. */
  lemma OwnedOnce(sb: Super, f: Fs, skip: set<(nat, nat)>, i: nat, k: nat)
    requires FsInv(sb, f, {}, skip) && i in f.table && k < SLOTS && Addr(f, i, k) != 0 && (i, k) !in skip
    ensures Addr(f, i, k) as nat in f.owner && f.owner[Addr(f, i, k)] == (i, k)
    ensures forall b :: b in f.owner && f.owner[b] == (i, k) ==> b == Addr(f, i, k)
  {
    hide SlotAddr, BitsOk;
  }

  lemma TruncNoIndirect(sb: Super, f: Fs, g: Fs, i: nat)
    requires FsInv(sb, f, {}, {}) && Truncated(sb, f, g, i, NDIRECT) && g.table[i].addrs[NDIRECT] == 0
    ensures Truncated(sb, f, g, i, SLOTS)
  {
    hide BitsOk, Word;
    forall k: nat | NDIRECT <= k < SLOTS
      ensures Addr(f, i, k) == 0
    {
      assert Addr(g, i, k) == 0;
    }
    hide Addr;
    forall b | b in f.owner && f.owner[b].0 == i
      ensures f.owner[b].1 < NDIRECT
    {
      assert Addr(f, f.owner[b].0, f.owner[b].1) == b && sb.Data(b);
    }
  }

  lemma TruncSlot(sb: Super, f: Fs, g: Fs, i: nat, n: nat, k: nat)
    requires Truncated(sb, f, g, i, n) && k < SLOTS && n <= Rank(k)
    ensures Addr(g, i, k) == Addr(f, i, k)
  {
  }

  /** itrunc's effect before the inode is written back. */
  lemma TruncDone(sb: Super, f: Fs, g: Fs, i: nat)
    requires FsInv(sb, f, {}, {}) && FsInv(sb, g, {}, {}) && Truncated(sb, f, g, i, SLOTS)
    ensures forall k: nat :: k < SLOTS ==> Addr(g, i, k) == 0
    ensures g.table.Keys == f.table.Keys && OwnersWithout(f, g, i)
    ensures forall j :: j in f.table && j != i ==> SameFile(f, g, j)
    ensures forall j :: j in f.table && SyncedAs(sb, f.d, j, f.table[j]) ==> SyncedAs(sb, g.d, j, f.table[j])
  {
    hide Word, Bit, SyncedAs;
    assert g.table[i].addrs[NDIRECT] == 0;
    forall k: nat | k < SLOTS
      ensures Addr(g, i, k) == 0
    {
    }
    hide SlotAddr;
    forall j: nat, x: nat | j in f.table && j != i && x < MAXFILE * BSIZE && Mapped(f, j, x / BSIZE)
      ensures FileByte(g, j, x) == FileByte(f, j, x)
    {
      SlotOwner(sb, f, j, FileSlot(x / BSIZE));
    }
    forall j | j in f.table && SyncedAs(sb, f.d, j, f.table[j])
      ensures SyncedAs(sb, g.d, j, f.table[j])
    {
      SyncedFrame(sb, f.d, g.d, j, f.table[j]);
    }
  }

  /** g's owners are f's without those of inode i. */
  ghost predicate OwnersWithout(f: Fs, g: Fs, i: nat) {
    && (forall b :: b in g.owner <==> b in f.owner && f.owner[b].0 != i)
    && (forall b :: b in g.owner ==> g.owner[b] == f.owner[b])
  }

  /** With the invariant, losing the owner and clearing the bit are the same thing. */
  lemma BitsWithout(sb: Super, f: Fs, g: Fs, i: nat)
    requires FsInv(sb, f, {}, {}) && FsInv(sb, g, {}, {}) && OwnersWithout(f, g, i)
    ensures forall b: nat :: b < sb.size ==>
              (Bit(sb, g.d, b) <==> Bit(sb, f.d, b) && !(b in f.owner && f.owner[b].0 == i))
  {
    hide Bit, SlotsOwn, Addr;
  }
}
