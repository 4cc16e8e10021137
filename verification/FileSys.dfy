/** fs.c over the blocks the buffer cache and the log present. Every
    log_write of the open operation is remembered in `logged`. */
module FileSys {
  import opened Common
  import opened Blocks
  import opened Bitmap
  import opened FsModel
  import LogMachine

  const T_DEV: Short := 3

  /** An inode in use, as `struct inode` holds it in memory. */
  class Inode {
    const inum: nat
    var kind: Short
    var major: Short
    var minor: Short
    var nlink: Short
    var size: Uint32
    const addrs: array<Uint32>

    ghost function AsMeta(): Meta
      requires addrs.Length == 13
      reads this, addrs
    {
      Meta(kind, major, minor, nlink, size, addrs[..])
    }
  }

  lemma EntryNeedsIndirect(f: Fs, i: nat, k: nat)
    requires i in f.table && NDIRECT < k < SLOTS && f.table[i].addrs[NDIRECT] == 0
    ensures Addr(f, i, k) == 0
  {
  }

  lemma EntryIs(f: Fs, i: nat, k: nat)
    requires i in f.table && NDIRECT < k < SLOTS && f.table[i].addrs[NDIRECT] != 0
    ensures Addr(f, i, k) == Word(FsModel.At(f.d, f.table[i].addrs[NDIRECT]), k - NDIRECT - 1)
  {
  }

  lemma IndirectIsData(sb: FsModel.Super, f: Fs, i: nat)
    requires FsInv(sb, f, {}, {}) && i in f.table && f.table[i].addrs[NDIRECT] != 0
    ensures sb.Data(f.table[i].addrs[NDIRECT]) && |f.d| == sb.size
  {
    IndirectOwned(sb, f, i);
  }

  lemma MappedBlock(sb: FsModel.Super, f: Fs, i: nat, bn: nat)
    requires FsInv(sb, f, {}, {}) && i in f.table && Mapped(f, i, bn)
    ensures Addr(f, i, FileSlot(bn)) < |f.d|
  {
    SlotOwner(sb, f, i, FileSlot(bn));
  }

  /** Byte off + x of a file lies in the block of byte off as long as x does not leave it. */
  lemma BlockByte(f: Fs, i: nat, off: nat, x: nat)
    requires i in f.table && f.table[i].size <= MAXFILE * BSIZE && off + x < f.table[i].size
    requires off % BSIZE + x < BSIZE
    ensures Contents(f, i)[off + x] == FsModel.At(f.d, Addr(f, i, FileSlot(off / BSIZE)))[off % BSIZE + x]
  {
    assert (off + x) / BSIZE == off / BSIZE && (off + x) % BSIZE == off % BSIZE + x;
  }

  lemma HolesSize(f: Fs, i: nat)
    requires i in f.table && NoHoles(f, i)
    ensures f.table[i].size <= MAXFILE * BSIZE
  {
  }

  function Max(a: nat, b: nat): nat {
    if a < b then b else a
  }

  /** How many blocks the bytes start .. start + tot touch. */
  function Turns(start: nat, tot: nat): nat {
    if tot == 0 then 0 else (start + tot - 1) / BSIZE - start / BSIZE + 1
  }

  lemma SameFiles(f: Fs)
    ensures forall j :: j in f.table ==> SameFile(f, f, j)
  {
  }

  /** How many of those turns can allocate. */
  function FreshTurns(start: nat, tot: nat): nat {
    if tot > 0 && start % BSIZE != 0 then Turns(start, tot) - 1 else Turns(start, tot)
  }

  /** The blocks logged since l0: data blocks, bitmap blocks of fresh ones, the indirect block's. */
  ghost predicate Logs(l0: set<nat>, l: set<nat>, data: set<nat>, maps: set<nat>, ind: set<nat>, start: nat, tot: nat) {
    && l0 <= l <= l0 + data + maps + ind && |ind| <= 2
    && |data| <= Turns(start, tot) && |maps| <= FreshTurns(start, tot)
  }

  lemma LogsNothing(l: set<nat>, ind: set<nat>, start: nat)
    requires |ind| <= 2
    ensures Logs(l, l, {}, {}, ind, start, 0)
  {
  }

  lemma LogsStep(l0: set<nat>, l: set<nat>, l': set<nat>, data: set<nat>, maps: set<nat>, ind: set<nat>,
                 start: nat, tot: nat, m: nat, b: nat, map': set<nat>, ind': set<nat>)
    requires Logs(l0, l, data, maps, ind, start, tot) && ind <= ind' && |ind'| <= 2
    requires m > 0 && (start + tot) % BSIZE + m <= BSIZE && (tot == 0 || (start + tot) % BSIZE == 0)
    requires l <= l' <= l + {b} + map' + (if map' == {} then {} else ind')
    requires |map'| <= 1 && (tot == 0 && start % BSIZE != 0 ==> map' == {})
    ensures Logs(l0, l', data + {b}, maps + map', ind', start, tot + m)
  {
    assert Turns(start, tot + m) == Turns(start, tot) + 1;
    assert |data + {b}| <= |data| + 1;
    assert |maps + map'| <= |maps| + |map'|;
  }

  lemma CostBound(l0: set<nat>, l: set<nat>, data: set<nat>, maps: set<nat>, ind: set<nat>, start: nat, n: nat)
    requires Logs(l0, l, data, maps, ind, start, n)
    ensures l0 <= l && |l - l0| <= 2 * ((n + 511) / 512) + 3
  {
    var all := data + maps + ind;
    assert |all| <= |data| + |maps| + |ind|;
    SubsetSize(l - l0, all);
  }

  lemma {:induction false} SubsetSize(a: set<nat>, b: set<nat>)
    requires a <= b
    ensures |a| <= |b|
  {
    if a != {} {
      var x :| x in a;
      SubsetSize(a - {x}, b - {x});
    }
  }

  /** A block below the size, or the one a first unaligned byte falls in, has been mapped all along. */
  lemma StillMapped(sb: FsModel.Super, f: Fs, h: Fs, i: nat, start: nat, src: seq<Byte>, tot: nat)
    requires Wrote(sb, f, h, i, start, src, tot) && NoHoles(f, i) && start <= f.table[i].size
    requires start + tot < f.table[i].size || (tot == 0 && start % BSIZE != 0)
    ensures Mapped(h, i, (start + tot) / BSIZE)
  {
    hide Addr, FileByte;
    var x := (start + tot) / BSIZE * BSIZE;
    assert x < f.table[i].size && x / BSIZE == (start + tot) / BSIZE;
    assert Mapped(f, i, x / BSIZE);
    if start <= x < start + tot {
      assert Mapped(h, i, x / BSIZE);
    }
  }

  lemma PlusOne(l0: set<nat>, l: set<nat>, l': set<nat>, b: nat)
    requires l0 <= l && l' == l + {b}
    ensures l0 <= l' && |l' - l0| <= |l - l0| + 1
  {
    SubsetSize(l' - l0, (l - l0) + {b});
  }

  lemma OthersKeptByLoop(sb: FsModel.Super, f: Fs, h: Fs, i: nat, start: nat, src: seq<Byte>)
    requires FsInv(sb, f, {}, {}) && Wrote(sb, f, h, i, start, src, |src|)
    ensures h.table.Keys == f.table.Keys
    ensures forall j :: j in f.table && j != i ==> SameFile(f, h, j)
    ensures forall j :: j in f.table && SyncedAs(sb, f.d, j, f.table[j]) ==> SyncedAs(sb, h.d, j, f.table[j])
  {
    hide SyncedAs, Addr, SameFile, FileByte;
    forall j | j in f.table && SyncedAs(sb, f.d, j, f.table[j])
      ensures SyncedAs(sb, h.d, j, f.table[j])
    {
      SyncedFrame(sb, f.d, h.d, j, f.table[j]);
    }
  }

  lemma OthersSynced(sb: FsModel.Super, f: Fs, h: Fs, i: nat, start: nat, src: seq<Byte>, v: Meta)
    requires FsInv(sb, f, {}, {}) && FsInv(sb, h, {}, {}) && Wrote(sb, f, h, i, start, src, |src|)
    ensures h.table.Keys == f.table.Keys && i in f.table && i < sb.ninodes && |h.d| == sb.size && sb.Ok()
    ensures SyncedAs(sb, Updated(sb, h.d, i, v), i, v)
    ensures forall j :: j in f.table && j != i && SyncedAs(sb, f.d, j, f.table[j]) ==>
              SyncedAs(sb, Updated(sb, h.d, i, v), j, f.table[j])
  {
    hide SyncedAs, Addr, SameFile, FileByte, Updated;
    OthersKeptByLoop(sb, f, h, i, start, src);
    SyncedUpdate(sb, h.d, i, v, i, v);
    forall j | j in f.table && j != i && SyncedAs(sb, f.d, j, f.table[j])
      ensures SyncedAs(sb, Updated(sb, h.d, i, v), j, f.table[j])
    {
      SyncedUpdate(sb, h.d, i, v, j, f.table[j]);
    }
  }

  lemma FullDisk(sb: FsModel.Super, d: FsModel.Disk)
    ensures DiskFull(sb, d) <==> forall c: nat :: c < sb.size ==> Bit(sb, d, c)
  {
  }

  lemma SyncedIs(sb: FsModel.Super, d: FsModel.Disk, i: nat, v: Meta)
    requires SyncedAs(sb, d, i, v)
    ensures DiskMeta(sb, d, i) == v
  {
  }

  lemma SplicedByte(was: seq<Byte>, off: nat, src: seq<Byte>)
    requires off <= |was|
    ensures |Splice(was, off, src)| == Max(off + |src|, |was|)
    ensures forall x: nat :: x < |Splice(was, off, src)| ==>
              Splice(was, off, src)[x] == if off <= x < off + |src| then src[x - off] else was[x]
  {
  }

  /** iupdate's write as the readers of the disk find it. */
  lemma UpdatedIs(sb: FsModel.Super, d: FsModel.Disk, i: nat, v: Meta)
    requires sb.Ok() && |d| == sb.size && i < sb.ninodes
    ensures DiskMeta(sb, Updated(sb, d, i, v), i) == v
    ensures forall j: nat :: j < sb.ninodes && j != i ==> DiskMeta(sb, Updated(sb, d, i, v), j) == DiskMeta(sb, d, j)
  {
    hide DiskMeta, Updated;
    SyncedUpdate(sb, d, i, v, i, v);
    forall j: nat | j < sb.ninodes && j != i
      ensures DiskMeta(sb, Updated(sb, d, i, v), j) == DiskMeta(sb, d, j)
    {
      SyncedUpdate(sb, d, i, v, j, DiskMeta(sb, d, j));
    }
  }

  lemma EmptyAddrs(f: Fs, i: nat)
    requires i in f.table && forall k: nat :: k < SLOTS ==> Addr(f, i, k) == 0
    ensures f.table[i].addrs == seq(13, _ => 0)
  {
    forall k: nat | k < 13
      ensures f.table[i].addrs[k] == 0
    {
      assert Addr(f, i, k) == 0;
    }
  }

  lemma FsSize(sb: FsModel.Super, f: Fs, skip: set<(nat, nat)>)
    requires FsInv(sb, f, {}, skip)
    ensures sb.Ok() && |f.d| == sb.size
  {
  }

  lemma WriteBackOther(sb: FsModel.Super, f: Fs, h: Fs, i: nat, v: Meta, j: nat)
    requires FsInv(sb, h, {}, {}) && i in h.table && v.addrs == h.table[i].addrs
    requires j in f.table && j in h.table && j != i && SameFile(f, h, j)
    requires SyncedAs(sb, f.d, j, f.table[j]) ==> SyncedAs(sb, h.d, j, f.table[j])
    ensures i < sb.ninodes && |h.d| == sb.size && sb.Ok()
    ensures SameFile(f, h.(table := h.table[i := v], d := Updated(sb, h.d, i, v)), j)
    ensures SyncedAs(sb, f.d, j, f.table[j]) ==> SyncedAs(sb, Updated(sb, h.d, i, v), j, f.table[j])
  {
    hide Addr, SyncedAs, SameFile, Updated;
    ResizedOther(sb, f, h, i, v, j);
    if SyncedAs(sb, f.d, j, f.table[j]) {
      SyncedUpdate(sb, h.d, i, v, j, f.table[j]);
    }
  }

  /** The inode of a truncated file is written back: nobody else notices. */
  lemma WriteBack(sb: FsModel.Super, f: Fs, h: Fs, i: nat, v: Meta)
    requires FsInv(sb, f, {}, {}) && FsInv(sb, h, {}, {}) && i in h.table && v.addrs == h.table[i].addrs
    requires h.table.Keys == f.table.Keys && OwnersWithout(f, h, i)
    requires forall j :: j in f.table && j != i ==> SameFile(f, h, j)
    requires forall j :: j in f.table && SyncedAs(sb, f.d, j, f.table[j]) ==> SyncedAs(sb, h.d, j, f.table[j])
    ensures i < sb.ninodes && |h.d| == sb.size && sb.Ok()
    ensures var k := h.(table := h.table[i := v], d := Updated(sb, h.d, i, v));
            && OwnersWithout(f, k, i)
            && SyncedAs(sb, k.d, i, v)
            && (forall m: nat :: m < SLOTS ==> Addr(k, i, m) == Addr(h, i, m))
            && forall j :: j in f.table && j != i ==>
                 && SameFile(f, k, j)
                 && (SyncedAs(sb, f.d, j, f.table[j]) ==> SyncedAs(sb, k.d, j, f.table[j]))
  {
    hide Addr, SyncedAs, SameFile, Updated;
    var g := h.(table := h.table[i := v]);
    ResizeInv(sb, h, i, v);
    UpdateInv(sb, g, i, v);
    SyncedUpdate(sb, h.d, i, v, i, v);
    var k := g.(d := Updated(sb, h.d, i, v));
    assert k == h.(table := h.table[i := v], d := Updated(sb, h.d, i, v));
    forall j | j in f.table && j != i
      ensures SameFile(f, k, j)
      ensures SyncedAs(sb, f.d, j, f.table[j]) ==> SyncedAs(sb, k.d, j, f.table[j])
    {
      WriteBackOther(sb, f, h, i, v, j);
    }
  }

  /** mkfs's layout: boot block, superblock, log, inode blocks, bitmap, and data behind the last of it. */
  lemma MkfsLayout(size: nat, ninodes: nat, nlog: nat)
    requires 2 + nlog + (ninodes / 8 + 1) + (size / (512 * 8) + 1) <= size < UINT32
    ensures var sb := FsModel.Super(size, ninodes, 2 + nlog, 2 + nlog + (ninodes / 8 + 1));
            && sb.Ok() && sb.DataStart() == 2 + nlog + (ninodes / 8 + 1) + (size / (512 * 8) + 1)
            && (forall i: nat :: i < ninodes ==> 2 + nlog <= sb.IBlock(i) < sb.bmapstart)
            && (forall b: nat :: b < size ==> sb.bmapstart <= sb.BBlock(b) < sb.DataStart())
            && forall b: nat :: sb.Data(b) <==> 2 + nlog + (ninodes / 8 + 1) + (size / 4096 + 1) <= b < size
  {
  }

  lemma ZeroBits()
    ensures forall j: nat :: j < BPB ==> !BitOf(ZeroBlock(), j)
  {
    forall j: nat | j < BPB
      ensures !BitOf(ZeroBlock(), j)
    {
      ZeroBit(j);
    }
  }

  lemma SetBits(bp: Block, b: nat)
    requires b < BPB && !BitOf(bp, b)
    ensures forall j: nat :: j < BPB ==> BitOf(SetBit(bp, b), j) == (j == b || BitOf(bp, j))
  {
    hide BitOf, SetBit;
    forall j: nat | j < BPB
      ensures BitOf(SetBit(bp, b), j) == (j == b || BitOf(bp, j))
    {
      BitOfSetBit(bp, b, j);
    }
  }

  /** mkfs has filled data blocks up to used, and made says into which slots they went. */
  ghost predicate Filled(sb: FsModel.Super, f: Fs, used: nat) {
    && sb.Ok() && |f.d| == sb.size && sb.DataStart() <= used <= sb.size
    && SlotsOwn(f, {}) && OwnersPoint(sb, f, {}) && (forall i :: i in f.table ==> i < sb.ninodes)
    && (forall b: nat :: b in f.owner <==> sb.DataStart() <= b < used)
  }

  lemma FilledSlot(sb: FsModel.Super, f: Fs, used: nat, bp: Block, i: nat, k: nat)
    requires Filled(sb, f, used) && i in f.table && k < SLOTS
    ensures sb.bmapstart < |f.d| && Addr(f.(d := f.d[sb.bmapstart := bp]), i, k) == Addr(f, i, k)
  {
    hide Word;
    var ind := f.table[i].addrs[NDIRECT];
    if ind != 0 {
      assert Addr(f, i, NDIRECT) == ind;
      assert sb.Data(ind);
    }
  }

  lemma MkfsInv(sb: FsModel.Super, f: Fs, used: nat, bp: Block)
    requires Filled(sb, f, used) && used < BPB
    requires forall b: nat :: sb.bmapstart <= b < sb.DataStart() ==> f.d[b] == ZeroBlock()
    requires forall j: nat :: j < BPB ==> BitOf(bp, j) == (j < used)
    ensures FsInv(sb, f.(d := f.d[sb.bmapstart := bp]), {}, {})
  {
    hide BitOf, Addr;
    ZeroBits();
    var g := f.(d := f.d[sb.bmapstart := bp]);
    forall i: nat, k: nat | i in f.table && k < SLOTS
      ensures Addr(g, i, k) == Addr(f, i, k)
    {
      FilledSlot(sb, f, used, bp, i, k);
    }
    assert SlotsOwn(g, {}) && OwnersPoint(sb, g, {});
    forall b: nat | b < sb.size
      ensures Bit(sb, g.d, b) <==> b < used
    {
      assert b / BPB == 0 ==> b % BPB == b;
      assert sb.BBlock(b) < sb.DataStart();
    }
  }

  class FileSys {
    const sb: FsModel.Super
    var blocks: FsModel.Disk
    ghost var table: map<nat, Meta>
    ghost var owner: map<nat, (nat, nat)>
    ghost var logged: set<nat>

    /** What mkfs leaves: files in the data blocks below used, and a bitmap that marks all blocks below
        used. mkfs fills one bitmap block only. */
    constructor Mkfs(sb: FsModel.Super, image: FsModel.Disk, used: nat, ghost inodes: map<nat, Meta>,
                     ghost made: map<nat, (nat, nat)>)
      requires Filled(sb, Fs(image, inodes, made), used) && used < BPB
      requires forall b: nat :: sb.bmapstart <= b < sb.DataStart() ==> image[b] == ZeroBlock()
      ensures Valid() && this.sb == sb && table == inodes && owner == made && logged == {}
      ensures forall b: nat :: b < sb.size && b != sb.bmapstart ==> blocks[b] == image[b]
    {
      var bp := ZeroBlock();
      var b := 0;
      ZeroBits();
      while b < used
        invariant b <= used < BPB
        invariant forall j: nat :: j < BPB ==> BitOf(bp, j) == (j < b)
      {
        SetBits(bp, b);
        bp := SetBit(bp, b);
        b := b + 1;
      }
      MkfsInv(sb, Fs(image, inodes, made), used, bp);
      this.sb, blocks, table, owner, logged := sb, image[sb.bmapstart := bp], inodes, made, {};
    }

    ghost function Now(): Fs
      reads this
    {
      Fs(blocks, table, owner)
    }

    ghost predicate Valid()
      reads this
    {
      FsInv(sb, Now(), {}, {})
    }

    ghost predicate Holds(ip: Inode)
      reads this, ip, ip.addrs
    {
      ip.addrs.Length == 13 && ip.inum in table && table[ip.inum] == ip.AsMeta()
    }

    /** begin_op: the transaction of this operation starts with nothing logged. */
    ghost method BeginOp()
      modifies `logged
      ensures logged == {}
    {
      logged := {};
    }

    method LogWrite(b: nat, v: Block)
      requires b < |blocks|
      modifies `blocks, `logged
      ensures blocks == old(blocks)[b := v] && logged == old(logged) + {b}
    {
      blocks := blocks[b := v];
      logged := logged + {b};
    }

    /** Takes the first block whose bit is clear, marks it and zeroes it; None is the panic
        when the disk is full. */
    method Balloc() returns (r: Option<Uint32>)
      requires Valid()
      modifies `blocks, `logged
      ensures |blocks| == old(|blocks|)
      ensures r.None? ==> blocks == old(blocks) && forall c: nat :: c < sb.size ==> Bit(sb, blocks, c)
      ensures r.Some? ==> var b := r.value;
                && sb.Data(b) && !old(Bit(sb, blocks, b))
                && (forall c: nat :: c < b ==> old(Bit(sb, blocks, c)))
                && (forall c: nat :: c < sb.size ==> (Bit(sb, blocks, c) <==> c == b || old(Bit(sb, blocks, c))))
                && blocks[b] == seq(512, _ => 0)
                && (forall c: nat :: c < |blocks| && c != b && c != sb.bmapstart + b / 4096 ==>
                     blocks[c] == old(blocks)[c])
                && blocks == Allocated(sb, old(blocks), b)
                && logged == old(logged) + {sb.BBlock(b), b as nat}
    {
      hide BitOf, SetBit, SlotsOwn, OwnersPoint;
      var b := 0;
      while b < sb.size
        invariant b % BPB == 0 && blocks == old(blocks) && logged == old(logged)
        invariant forall c: nat :: c < b && c < sb.size ==> Bit(sb, blocks, c)
        decreases sb.size - b
      {
        assert sb.BBlock(b) < |blocks|;
        var bp := blocks[sb.BBlock(b)];
        var bi := 0;
        while bi < BPB && b + bi < sb.size
          invariant bi <= BPB && blocks == old(blocks) && logged == old(logged)
          invariant forall c: nat :: c < b + bi && c < sb.size ==> Bit(sb, blocks, c)
        {
          assert sb.BBlock(b + bi) == sb.BBlock(b) && (b + bi) % BPB == bi;
          if !BitOf(bp, bi) {
            assert !Bit(sb, blocks, b + bi);
            assert sb.Data(b + bi);
            AllocatedIs(sb, blocks, b + bi);
            LogWrite(sb.BBlock(b), SetBit(bp, bi));
            LogWrite(b + bi, ZeroBlock());
            return Some(b + bi);
          }
          assert Bit(sb, blocks, b + bi);
          bi := bi + 1;
        }
        b := b + BPB;
      }
      return None;
    }

    /** Clears the bit of block b; !ok is the panic "freeing free block". */
    method Bfree(b: Uint32) returns (ok: bool)
      requires sb.Ok() && |blocks| == sb.size && b < sb.size
      modifies `blocks, `logged
      ensures ok == old(Bit(sb, blocks, b))
      ensures ok ==> blocks == Freed(sb, old(blocks), b) && |blocks| == |old(blocks)|
      ensures ok ==> forall c: nat :: c < sb.size ==> (Bit(sb, blocks, c) <==> c != b && old(Bit(sb, blocks, c)))
      ensures ok ==> forall c: nat :: c < |blocks| && c != sb.bmapstart + b / 4096 ==> blocks[c] == old(blocks)[c]
      ensures !ok ==> blocks == old(blocks)
    {
      var bp := blocks[sb.BBlock(b)];
      var bi := b % BPB;
      if !BitOf(bp, bi) {
        return false;
      }
      FreedIs(sb, blocks, b);
      LogWrite(sb.BBlock(b), ClearBit(bp, bi));
      return true;
    }

    /** The log blocks that allocating an indirect block can cost. */
    ghost function IndirectCost(ip: Inode): set<nat>
      requires ip.addrs.Length == 13
      reads ip, ip.addrs
    {
      if ip.addrs[NDIRECT] == 0 then {} else {ip.addrs[NDIRECT] as nat, sb.BBlock(ip.addrs[NDIRECT])}
    }

    /** Address k of the inode, direct or indirect, filled with a fresh block if it was 0. */
    method BmapAddr(ip: Inode, k: nat) returns (r: Option<Uint32>)
      requires Valid() && Holds(ip) && k <= NDIRECT
      modifies this, ip.addrs
      ensures r.None? ==> DiskFull(sb, blocks)
      ensures r.Some? ==> Valid() && Holds(ip) && r.value == ip.addrs[k] != 0
      ensures r.Some? ==> Grown(sb, old(Now()), Now(), ip.inum)
      ensures old(ip.addrs[k]) != 0 ==>
                r.Some? && Now() == old(Now()) && logged == old(logged) && ip.addrs[..] == old(ip.addrs[..])
      ensures r.Some? ==> ip.addrs[..] == old(ip.addrs[..])[k := r.value]
      ensures r.Some? ==> old(logged) <= logged <= old(logged) + {r.value as nat, sb.BBlock(r.value)}
    {
      hide FsInv, Grown, SlotAddr, Allocated, DiskFull;
      ghost var f0 := Now();
      GrownRefl(sb, f0, ip.inum);
      var addr := ip.addrs[k];
      if addr == 0 {
        var nb := Balloc();
        if nb.None? {
          FullDisk(sb, blocks);
          return None;
        }
        addr := nb.value;
        ip.addrs[k] := addr;
        GrowAddr(sb, f0, addr, ip.inum, k);
        table := table[ip.inum := ip.AsMeta()];
        owner := owner[addr := (ip.inum, k)];
      }
      return Some(addr);
    }

    /** Entry bn - NDIRECT of the inode's indirect block, filled likewise. */
    method BmapEntry(ip: Inode, bn: nat) returns (r: Option<Uint32>)
      requires Valid() && Holds(ip) && NDIRECT <= bn < MAXFILE && ip.addrs[NDIRECT] != 0
      modifies this
      ensures r.None? ==> DiskFull(sb, blocks)
      ensures r.Some? ==> Valid() && Holds(ip) && r.value == Addr(Now(), ip.inum, bn + 1) != 0
      ensures r.Some? ==> Grown(sb, old(Now()), Now(), ip.inum)
      ensures old(Addr(Now(), ip.inum, bn + 1)) != 0 ==>
                r.Some? && Now() == old(Now()) && logged == old(logged)
      ensures r.Some? ==>
                old(logged) <= logged <= old(logged) + {r.value as nat, sb.BBlock(r.value), ip.addrs[NDIRECT] as nat}
    {
      hide FsInv, Grown, SlotAddr, Addr, Allocated, DiskFull;
      ghost var f := Now();
      GrownRefl(sb, f, ip.inum);
      IndirectIsData(sb, f, ip.inum);
      EntryIs(f, ip.inum, bn + 1);
      var addr := ip.addrs[NDIRECT];
      var bp := blocks[addr];
      var entry := Word(bp, bn - NDIRECT);
      if entry == 0 {
        var nb := Balloc();
        if nb.None? {
          FullDisk(sb, blocks);
          return None;
        }
        entry := nb.value;
        GrowEntry(sb, f, entry, ip.inum, bn + 1);
        LogWrite(addr, SetWord(bp, bn - NDIRECT, entry));
        owner := owner[entry := (ip.inum, bn + 1)];
      }
      return Some(entry);
    }

    /** The disk block of block bn of the file, allocated if there was none. */
    method Bmap(ip: Inode, bn: nat) returns (r: Option<Uint32>)
      requires Valid() && Holds(ip) && bn < MAXFILE
      modifies this, ip.addrs
      ensures r.None? ==> DiskFull(sb, blocks)
      ensures r.Some? ==> Valid() && Holds(ip) && Mapped(Now(), ip.inum, bn)
      ensures r.Some? ==> r.value == Addr(Now(), ip.inum, FileSlot(bn))
      ensures r.Some? && bn < 12 ==> r.value == ip.addrs[bn]
      ensures r.Some? && bn >= 12 ==> ip.addrs[12] < |blocks| && r.value == Word(blocks[ip.addrs[12]], bn - 12)
      ensures r.Some? ==> Grown(sb, old(Now()), Now(), ip.inum)
      ensures old(Mapped(Now(), ip.inum, bn)) ==>
                r.Some? && Now() == old(Now()) && logged == old(logged) && ip.addrs[..] == old(ip.addrs[..])
      ensures r.Some? ==> old(logged) <= logged <= old(logged) + {r.value as nat, sb.BBlock(r.value)} + IndirectCost(ip)
      ensures r.Some? ==> old(IndirectCost(ip)) <= IndirectCost(ip)
    {
      hide FsInv, Grown, SlotAddr, Addr, Allocated, DiskFull;
      ghost var f := Now();
      if bn < NDIRECT {
        AddrOf(f, ip.inum, bn);
        r := BmapAddr(ip, bn);
        if r.Some? {
          AddrOf(Now(), ip.inum, bn);
        }
        return r;
      }
      AddrOf(f, ip.inum, NDIRECT);
      if ip.addrs[NDIRECT] == 0 {
        EntryNeedsIndirect(f, ip.inum, bn + 1);
      }
      r := BmapAddr(ip, NDIRECT);
      if r.None? {
        return None;
      }
      ghost var g := Now();
      r := BmapEntry(ip, bn);
      if r.Some? {
        EntryIs(Now(), ip.inum, bn + 1);
        IndirectIsData(sb, Now(), ip.inum);
        GrownTrans(sb, f, g, Now(), ip.inum);
      }
    }

    /** Copies the in-memory inode to its place in its inode block. */
    method Iupdate(ip: Inode)
      requires Valid() && Holds(ip)
      modifies `blocks, `logged
      ensures Valid() && Holds(ip)
      ensures blocks == Updated(sb, old(blocks), ip.inum, table[ip.inum])
      ensures DiskMeta(sb, blocks, ip.inum) ==
              Meta(ip.kind, ip.major, ip.minor, ip.nlink, ip.size, ip.addrs[..])
      ensures forall j: nat :: j < sb.ninodes && j != ip.inum ==>
                DiskMeta(sb, blocks, j) == DiskMeta(sb, old(blocks), j)
      ensures forall b: nat :: b < |blocks| && b != sb.inodestart + ip.inum / 8 ==> blocks[b] == old(blocks)[b]
      ensures logged == old(logged) + {sb.IBlock(ip.inum)}
    {
      hide PutWords, SlotsOwn, OwnersPoint, BitsOk;
      UpdateInv(sb, Now(), ip.inum, table[ip.inum]);
      UpdatedIs(sb, blocks, ip.inum, table[ip.inum]);
      var dinode := [ip.kind + 0x1_0000 * ip.major, ip.minor + 0x1_0000 * ip.nlink, ip.size] + ip.addrs[..];
      assert dinode == Encode(table[ip.inum]);
      var b := sb.IBlock(ip.inum);
      LogWrite(b, PutWords(blocks[b], 16 * (ip.inum % IPB), dinode));
    }

    /** ilock of an inode that is not yet in memory. !ok is the panic of an inode without a type. */
    method ILock(ip: Inode) returns (ok: bool)
      requires Valid() && ip.addrs.Length == 13 && ip.inum < sb.ninodes
      modifies ip`kind, ip`major, ip`minor, ip`nlink, ip`size, ip.addrs
      ensures Meta(ip.kind, ip.major, ip.minor, ip.nlink, ip.size, ip.addrs[..]) == DiskMeta(sb, blocks, ip.inum)
      ensures ip.inum in table && SyncedAs(sb, blocks, ip.inum, table[ip.inum]) ==> Holds(ip)
      ensures ok <==> DiskMeta(sb, blocks, ip.inum).kind != 0
    {
      hide FsInv, Word;
      InInodeBlock(ip.inum);
      var bp, w := blocks[sb.IBlock(ip.inum)], 16 * (ip.inum % IPB);
      ip.kind, ip.major := Word(bp, w) % 0x1_0000, Word(bp, w) / 0x1_0000;
      ip.minor, ip.nlink := Word(bp, w + 1) % 0x1_0000, Word(bp, w + 1) / 0x1_0000;
      ip.size := Word(bp, w + 2);
      forall k | 0 <= k < 13 {
        ip.addrs[k] := Word(bp, w + 3 + k);
      }
      assert ip.addrs[..] == DiskMeta(sb, blocks, ip.inum).addrs;
      ok := ip.kind != 0;
    }

    lemma InInodeBlock(i: nat)
      requires Valid() && i < sb.ninodes
      ensures sb.IBlock(i) < |blocks|
    {
    }

    /** One turn of readi's loop: m bytes of the block of byte off. bmap finds the block and allocates nothing. */
    method ReadBlock(ip: Inode, off: nat, m: nat) returns (data: seq<Byte>)
      requires Valid() && Holds(ip) && NoHoles(Now(), ip.inum) && off + m <= ip.size && 0 < m <= BSIZE - off % BSIZE
      modifies this, ip.addrs
      ensures Valid() && Holds(ip) && Now() == old(Now()) && logged == old(logged)
      ensures ip.addrs[..] == old(ip.addrs[..]) && data == Contents(Now(), ip.inum)[off..off + m]
    {
      hide FsInv, FileByte, Addr, Grown;
      ghost var c := Contents(Now(), ip.inum);
      assert off / BSIZE * BSIZE < ip.size;
      assert Mapped(Now(), ip.inum, off / BSIZE);
      var bp := Bmap(ip, off / BSIZE);
      MappedBlock(sb, Now(), ip.inum, off / BSIZE);
      data := blocks[bp.value][off % BSIZE..off % BSIZE + m];
      forall x | 0 <= x < m
        ensures data[x] == c[off..off + m][x]
      {
        BlockByte(Now(), ip.inum, off, x);
      }
      assert data == c[off..off + m];
    }

    /** readi of a file: up to n bytes from off on; the result is -1 or the number of bytes. */
    method ReadFile(ip: Inode, start: Uint32, count: Uint32) returns (r: int, dst: seq<Byte>)
      requires Valid() && Holds(ip) && NoHoles(Now(), ip.inum)
      modifies this, ip.addrs
      ensures Valid() && Holds(ip) && Now() == old(Now()) && logged == old(logged)
      ensures ip.addrs[..] == old(ip.addrs[..])
      ensures (start > ip.size || start + count >= UINT32) ==> r == -1 && dst == []
      ensures start <= ip.size && start + count < UINT32 ==>
                var end := Min(start + count, ip.size);
                r == end - start && dst == Contents(Now(), ip.inum)[start..end]
    {
      hide FsInv, FileByte, Addr, Grown, NoHoles;
      HolesSize(Now(), ip.inum);
      dst := [];
      var off, n := start, count;
      if off > ip.size || (off + n) % UINT32 < off {
        return -1, [];
      }
      if off + n > ip.size {
        n := ip.size - off;
      }
      var tot := 0;
      ghost var c := Contents(Now(), ip.inum);
      while tot < n
        invariant Valid() && Holds(ip) && Now() == old(Now()) && logged == old(logged)
        invariant ip.addrs[..] == old(ip.addrs[..])
        invariant tot <= n && off == start + tot && dst == c[start..off]
      {
        var m := Min(n - tot, BSIZE - off % BSIZE);
        var data := ReadBlock(ip, off, m);
        dst := dst + data;
        tot, off := tot + m, off + m;
      }
      r := n;
    }

    /** readi. dev is what the driver of the inode's device answers, None if there is no such driver. */
    method ReadI(ip: Inode, start: Uint32, count: Uint32, dev: Option<(int, seq<Byte>)>)
      returns (r: int, dst: seq<Byte>)
      requires Valid() && Holds(ip) && (ip.kind != T_DEV ==> NoHoles(Now(), ip.inum))
      modifies this, ip.addrs
      ensures Valid() && Holds(ip) && Now() == old(Now()) && logged == old(logged)
      ensures ip.addrs[..] == old(ip.addrs[..])
      ensures ip.kind == T_DEV ==> (r, dst) == if dev.Some? then dev.value else (-1, [])
      ensures ip.kind != T_DEV && (start > ip.size || start + count >= UINT32) ==> r == -1 && dst == []
      ensures ip.kind != T_DEV && start <= ip.size && start + count < UINT32 ==>
                var end := Min(start + count, ip.size);
                r == end - start && dst == Contents(Now(), ip.inum)[start..end]
    {
      hide FsInv, NoHoles, Contents;
      if ip.kind == T_DEV {
        if dev.None? {
          return -1, [];
        }
        return dev.value.0, dev.value.1;
      }
      r, dst := ReadFile(ip, start, count);
    }

    /** One turn of writei's loop: moves m bytes of src into the block of byte start + tot. */
    method WriteBlock(ip: Inode, src: seq<Byte>, start: nat, tot: nat, ghost f: Fs)
      returns (r: Option<Uint32>, m: nat, ghost map': set<nat>)
      requires Valid() && Holds(ip) && tot < |src| && start + |src| <= MAXFILE * BSIZE
      requires Wrote(sb, f, Now(), ip.inum, start, src, tot)
      modifies this, ip.addrs
      ensures m == Min(|src| - tot, BSIZE - (start + tot) % BSIZE)
      ensures r.None? ==> DiskFull(sb, blocks)
      ensures r.Some? ==> Valid() && Holds(ip) && Wrote(sb, f, Now(), ip.inum, start, src, tot + m)
      ensures r.Some? && old(Mapped(Now(), ip.inum, (start + tot) / BSIZE)) ==> table == old(table) && map' == {}
      ensures r.Some? ==> |map'| <= 1 && old(logged) <= logged
      ensures r.Some? ==>
                logged <= old(logged) + {r.value as nat} + map' + (if map' == {} then {} else IndirectCost(ip))
      ensures r.Some? ==> old(IndirectCost(ip)) <= IndirectCost(ip)
    {
      hide FsInv, Wrote, Grown, Addr, Patched, DiskFull;
      var off := start + tot;
      m := Min(|src| - tot, BSIZE - off % BSIZE);
      ghost var g := Now();
      ghost var mapped := Mapped(g, ip.inum, off / BSIZE);
      r := Bmap(ip, off / BSIZE);
      map' := {};
      if r.None? {
        return;
      }
      if !mapped {
        map' := {sb.BBlock(r.value)};
      }
      ghost var h := Now();
      WroteGrow(sb, f, g, h, ip.inum, start, src, tot);
      WroteBlock(sb, f, h, ip.inum, start, src, tot, m);
      LogWrite(r.value, Patched(blocks[r.value], off % BSIZE, src[tot..tot + m]));
    }

    /** writei's loop. The blocks it logs: per turn the data block, and its bitmap block when
        bmap allocates it, which it cannot in a first turn that starts inside a block. */
    method WriteBlocks(ip: Inode, src: seq<Byte>, start: nat) returns (ok: bool)
      requires Valid() && Holds(ip) && NoHoles(Now(), ip.inum)
      requires start <= ip.size && start + |src| <= MAXFILE * BSIZE
      modifies this, ip.addrs
      ensures !ok ==> DiskFull(sb, blocks)
      ensures ok ==> Valid() && Holds(ip) && Wrote(sb, old(Now()), Now(), ip.inum, start, src, |src|)
      ensures ok && start + |src| <= ip.size ==> table == old(table)
      ensures ok ==> old(logged) <= logged && |logged - old(logged)| <= 2 * ((|src| + 511) / 512) + 3
    {
      hide FsInv, Wrote, Addr, Mapped, NoHoles, Logs, Turns, FreshTurns, DiskFull;
      ghost var f := Now();
      ghost var i := ip.inum;
      ghost var data: set<nat>, maps: set<nat> := {}, {};
      var off, tot, n := start, 0, |src|;
      WroteNothing(sb, f, i, start, src);
      LogsNothing(logged, IndirectCost(ip), start);
      while tot < n
        invariant Valid() && Holds(ip) && tot <= n && off == start + tot
        invariant Wrote(sb, f, Now(), i, start, src, tot)
        invariant off <= ip.size ==> table == f.table
        invariant Logs(old(logged), logged, data, maps, IndirectCost(ip), start, tot)
        invariant tot == n || off % BSIZE == 0 || tot == 0
      {
        if off < ip.size || (tot == 0 && start % BSIZE != 0) {
          StillMapped(sb, f, Now(), i, start, src, tot);
        }
        ghost var l, cost := logged, IndirectCost(ip);
        var b, m, map' := WriteBlock(ip, src, start, tot, f);
        if b.None? {
          return false;
        }
        LogsStep(old(logged), l, logged, data, maps, cost, start, tot, m, b.value, map', IndirectCost(ip));
        data, maps := data + {b.value as nat}, maps + map';
        tot, off := tot + m, off + m;
      }
      CostBound(old(logged), logged, data, maps, IndirectCost(ip), start, n);
      ok := true;
    }

    /** What writei promises of every file but its own. */
    ghost predicate OthersKept(f: Fs, i: nat)
      reads this
    {
      && table.Keys == f.table.Keys
      && forall j :: j in f.table && j != i ==>
           && SameFile(f, Now(), j)
           && (SyncedAs(sb, f.d, j, f.table[j]) ==> SyncedAs(sb, blocks, j, f.table[j]))
    }

    /** writei of a file: src from start on. None is the panic of a full disk, -1 a refusal. */
    method WriteFile(ip: Inode, src: seq<Byte>, start: Uint32) returns (r: Option<int>)
      requires Valid() && Holds(ip) && NoHoles(Now(), ip.inum) && |src| < UINT32
      requires SyncedAs(sb, blocks, ip.inum, table[ip.inum])
      modifies this, ip`size, ip.addrs
      ensures r == Some(-1) <==> old(start > ip.size || start + |src| >= UINT32 || start + |src| > MAXFILE * BSIZE)
      ensures r == Some(-1) ==> Now() == old(Now()) && logged == old(logged) && ip.AsMeta() == old(ip.AsMeta())
      ensures r.None? ==> forall c: nat :: c < sb.size ==> Bit(sb, blocks, c)
      ensures ip.kind == old(ip.kind)
      ensures r.Some? ==> Valid() && Holds(ip) && NoHoles(Now(), ip.inum) && OthersKept(old(Now()), ip.inum)
      ensures r.Some? ==> SyncedAs(sb, blocks, ip.inum, table[ip.inum])
      ensures r.Some? && r.value != -1 ==>
                && r.value == |src|
                && ip.size == old(Max(start + |src|, ip.size))
                && Contents(Now(), ip.inum) == Splice(old(Contents(Now(), ip.inum)), start, src)
      ensures r.Some? ==> old(logged) <= logged && |logged - old(logged)| <= 2 * ((|src| + 511) / 512) + 4
      ensures r.Some? && r.value != -1 ==>
                && DiskMeta(sb, blocks, ip.inum) ==
                     Meta(ip.kind, ip.major, ip.minor, ip.nlink, ip.size, ip.addrs[..])
                && ip.size <= MAXFILE * BSIZE
                && forall x: nat :: x < ip.size ==>
                     DiskByte(sb, blocks, ip.inum, x) ==
                       if start <= x < start + |src| then src[x - start] else DiskByte(sb, old(blocks), ip.inum, x)
    {
      hide FsInv, Wrote, Addr, SlotAddr, FileByte, SyncedAs, SameFile, Updated, NoHoles, Contents, Splice, DiskFull,
        DiskMeta, DiskByte;
      ContentsOnDisk(sb, Now(), ip.inum);
      ghost var f := Now();
      ghost var i := ip.inum;
      if start > ip.size || (start + |src|) % UINT32 < start {
        SameFiles(f);
        return Some(-1);
      }
      if start + |src| > MAXFILE * BSIZE {
        SameFiles(f);
        return Some(-1);
      }
      var ok := WriteBlocks(ip, src, start);
      if !ok {
        FullDisk(sb, blocks);
        return None;
      }
      ghost var h := Now();
      ghost var l := logged;
      var off := start + |src|;
      if |src| > 0 && off > ip.size {
        ip.size := off;
        ghost var v := h.table[i].(size := off);
        assert ip.AsMeta() == v;
        table := table[i := v];
        OthersSynced(sb, f, h, i, start, src, v);
        GrowSize(sb, f, h, i, start, src);
        Iupdate(ip);
        assert blocks == Updated(sb, h.d, i, v);
        assert table.Keys == f.table.Keys;
        PlusOne(old(logged), l, logged, sb.IBlock(i));
      } else {
        WroteAll(sb, f, h, h, i, start, src);
        OthersKeptByLoop(sb, f, h, i, start, src);
      }
      ContentsOnDisk(sb, Now(), i);
      SplicedByte(old(Contents(Now(), ip.inum)), start, src);
      SyncedIs(sb, blocks, i, table[i]);
      return Some(|src|);
    }

    /** writei. dev is what the driver of the inode's device answers, None if there is no such driver. */
    method WriteI(ip: Inode, src: seq<Byte>, start: Uint32, dev: Option<int>) returns (r: Option<int>)
      requires Valid() && Holds(ip) && |src| < UINT32
      requires ip.kind != T_DEV ==> NoHoles(Now(), ip.inum) && SyncedAs(sb, blocks, ip.inum, table[ip.inum])
      modifies this, ip`size, ip.addrs
      ensures ip.kind == T_DEV ==>
                && r == Some(if dev.Some? then dev.value else -1) && Now() == old(Now()) && logged == old(logged)
                && Valid() && Holds(ip)
      ensures ip.kind != T_DEV ==>
                && (r == Some(-1) <==>
                    old(start > ip.size || start + |src| >= UINT32 || start + |src| > MAXFILE * BSIZE))
                && (r == Some(-1) ==> Now() == old(Now()) && logged == old(logged) && ip.AsMeta() == old(ip.AsMeta()))
                && (r.None? ==> forall c: nat :: c < sb.size ==> Bit(sb, blocks, c))
      ensures ip.kind != T_DEV && r.Some? ==>
                && Valid() && Holds(ip) && NoHoles(Now(), ip.inum) && OthersKept(old(Now()), ip.inum)
                && SyncedAs(sb, blocks, ip.inum, table[ip.inum])
                && old(logged) <= logged && |logged - old(logged)| <= 2 * ((|src| + 511) / 512) + 4
      ensures ip.kind != T_DEV && r.Some? && r.value != -1 ==>
                && r.value == |src|
                && ip.size == old(Max(start + |src|, ip.size))
                && Contents(Now(), ip.inum) == Splice(old(Contents(Now(), ip.inum)), start, src)
      ensures ip.kind != T_DEV && r.Some? && r.value != -1 ==>
                && DiskMeta(sb, blocks, ip.inum) ==
                     Meta(ip.kind, ip.major, ip.minor, ip.nlink, ip.size, ip.addrs[..])
                && ip.size <= MAXFILE * BSIZE
                && forall x: nat :: x < ip.size ==>
                     DiskByte(sb, blocks, ip.inum, x) ==
                       if start <= x < start + |src| then src[x - start] else DiskByte(sb, old(blocks), ip.inum, x)
    {
      hide FsInv, SyncedAs, SameFile, NoHoles, Contents, Splice, Bit, DiskMeta, DiskByte;
      if ip.kind == T_DEV {
        return Some(if dev.Some? then dev.value else -1);
      }
      r := WriteFile(ip, src, start);
    }

    /** bfree of address k, if it is set, and zero into it. */
    method ItruncAddr(ip: Inode, k: nat, ghost f: Fs, ghost skip: set<(nat, nat)>)
      requires FsInv(sb, f, {}, {}) && FsInv(sb, Now(), {}, skip) && Holds(ip) && k <= NDIRECT
      requires Truncated(sb, f, Now(), ip.inum, Rank(k)) && (k == NDIRECT ==> ip.addrs[k] != 0)
      requires forall s :: s in skip <==> s.0 == ip.inum && NDIRECT < s.1 < SLOTS && k == NDIRECT
      modifies this, ip.addrs
      ensures Valid() && Holds(ip) && Truncated(sb, f, Now(), ip.inum, Rank(k) + 1)
    {
      hide FsInv, Truncated, Addr, Bit, Freed;
      ghost var g := Now();
      AddrOf(g, ip.inum, k);
      if ip.addrs[k] != 0 {
        TruncAddr(sb, f, g, ip.inum, skip, k);
        FsSize(sb, g, skip);
        var ok := Bfree(ip.addrs[k]);
        assert ok;
        owner := owner - {ip.addrs[k] as nat};
        ip.addrs[k] := 0;
        table := table[ip.inum := ip.AsMeta()];
      } else {
        assert skip == {};
        TruncEmpty(sb, f, g, ip.inum, skip, k);
      }
    }

    /** bfree of every block listed in the indirect block. */
    method ItruncEntries(ip: Inode, ghost f: Fs) returns (ghost skip: set<(nat, nat)>)
      requires FsInv(sb, f, {}, {}) && Valid() && Holds(ip) && ip.addrs[NDIRECT] != 0
      requires Truncated(sb, f, Now(), ip.inum, NDIRECT)
      modifies `blocks, `logged, `owner
      ensures FsInv(sb, Now(), {}, skip) && Holds(ip) && Truncated(sb, f, Now(), ip.inum, SLOTS - 1)
      ensures forall s :: s in skip <==> s.0 == ip.inum && NDIRECT < s.1 < SLOTS
    {
      hide FsInv, Truncated, Addr, Bit, Freed;
      skip := {};
      ghost var n, g0 := ip.inum, Now();
      IndirectIsData(sb, g0, n);
      var bp := blocks[ip.addrs[NDIRECT]];
      var j := 0;
      while j < NINDIRECT
        invariant j <= NINDIRECT && FsInv(sb, Now(), {}, skip) && Holds(ip) && table == old(table)
        invariant forall s :: s in skip <==> s.0 == n && NDIRECT < s.1 < NDIRECT + 1 + j
        invariant Truncated(sb, f, Now(), n, NDIRECT + j)
      {
        ghost var g, k := Now(), NDIRECT + 1 + j;
        EntryIs(g0, n, k);
        TruncSlot(sb, f, g0, n, NDIRECT, k);
        TruncSlot(sb, f, g, n, NDIRECT + j, k);
        var entry := Word(bp, j);
        if entry != 0 {
          TruncEntry(sb, f, g, n, skip, k);
          FsSize(sb, g, skip);
          var ok := Bfree(entry);
          assert ok;
          owner := owner - {entry as nat};
        } else {
          TruncEmpty(sb, f, g, n, skip, k);
        }
        skip := skip + {(n, k)};
        j := j + 1;
      }
    }

    /** Frees every block of the inode. "freeing free block" is unreachable: the assertions of
        ok above say so. Exactly the bits of this inode's blocks are cleared. */
    method Itrunc(ip: Inode)
      requires Valid() && Holds(ip)
      modifies this, ip`size, ip.addrs
      ensures Valid() && Holds(ip) && ip.size == 0
      ensures forall k: nat :: k < SLOTS ==> Addr(Now(), ip.inum, k) == 0
      ensures OwnersWithout(old(Now()), Now(), ip.inum)
      ensures forall b: nat :: b < sb.size ==>
                (Bit(sb, blocks, b) <==>
                 old(Bit(sb, blocks, b)) && !(b in old(owner) && old(owner)[b].0 == ip.inum))
      ensures DiskMeta(sb, blocks, ip.inum) == Meta(ip.kind, ip.major, ip.minor, ip.nlink, 0, ip.addrs[..])
      ensures forall k :: 0 <= k < 13 ==> ip.addrs[k] == 0
      ensures ip.kind == old(ip.kind) && ip.major == old(ip.major) && ip.minor == old(ip.minor)
      ensures ip.nlink == old(ip.nlink)
      ensures SyncedAs(sb, blocks, ip.inum, table[ip.inum]) && OthersKept(old(Now()), ip.inum)
    {
      hide FsInv, Truncated, Addr, SyncedAs, SameFile, Bit, Freed, Updated, OwnersWithout, DiskMeta;
      ghost var f, n := Now(), ip.inum;
      TruncatedNone(sb, f, n);
      var i := 0;
      while i < NDIRECT
        invariant i <= NDIRECT && Valid() && Holds(ip) && Truncated(sb, f, Now(), n, i)
      {
        ItruncAddr(ip, i, f, {});
        i := i + 1;
      }
      if ip.addrs[NDIRECT] != 0 {
        ghost var skip := ItruncEntries(ip, f);
        ItruncAddr(ip, NDIRECT, f, skip);
      } else {
        TruncNoIndirect(sb, f, Now(), n);
      }
      ghost var h := Now();
      TruncDone(sb, f, h, n);
      ip.size := 0;
      ghost var v := h.table[n].(size := 0);
      assert ip.AsMeta() == v;
      table := table[n := v];
      ResizeInv(sb, h, n, v);
      WriteBack(sb, f, h, n, v);
      Iupdate(ip);
      assert blocks == Updated(sb, h.d, n, v);
      BitsWithout(sb, f, Now(), n);
      EmptyAddrs(Now(), n);
    }
  }
}
