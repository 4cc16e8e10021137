/** filewrite of file.c: a write is cut into transactions of at most three blocks of bytes, so
    that each stays within the MAXOPBLOCKS blocks that begin_op reserves. */
module File {
  import opened Common
  import opened Blocks
  import opened FsModel
  import opened FileSys
  import LogMachine

  const MAXWRITE: nat := (LogMachine.MAXOPBLOCKS - 1 - 1 - 2) / 2 * 512

  /** An open file of type FD_INODE. */
  class File {
    var writable: bool
    const ip: Inode
    var off: Uint32

    constructor (ip: Inode, writable: bool)
      ensures this.ip == ip && this.writable == writable && off == 0
    {
      this.ip, this.writable, off := ip, writable, 0;
    }
  }

  lemma SpliceSplice(c: seq<Byte>, off: nat, a: seq<Byte>, b: seq<Byte>)
    requires off <= |c|
    ensures Splice(Splice(c, off, a), off + |a|, b) == Splice(c, off, a + b)
  {
    var s := Splice(c, off, a);
    assert s[..off + |a|] == c[..off] + a;
    if off + |a| + |b| < |s| {
      assert s[off + |a| + |b|..] == c[off + |a| + |b|..];
    }
  }

  lemma SpliceNothing(c: seq<Byte>, off: nat)
    requires off <= |c|
    ensures Splice(c, off, []) == c
  {
  }

  lemma OthersRefl(fs: FileSys, f: Fs, i: nat)
    requires f == fs.Now()
    ensures fs.OthersKept(f, i)
  {
  }

  lemma SameFileTrans(f: Fs, g: Fs, h: Fs, j: nat)
    requires j in f.table && SameFile(f, g, j) && SameFile(g, h, j)
    ensures SameFile(f, h, j)
  {
    hide Addr, FileByte;
    forall x: nat | x < MAXFILE * BSIZE && Mapped(f, j, x / BSIZE)
      ensures FileByte(h, j, x) == FileByte(f, j, x)
    {
      assert Mapped(g, j, x / BSIZE);
    }
  }

  lemma OthersTrans(fs: FileSys, f: Fs, g: Fs, i: nat)
    requires g.table.Keys == f.table.Keys
    requires forall j :: j in f.table && j != i ==>
               SameFile(f, g, j) && (SyncedAs(fs.sb, f.d, j, f.table[j]) ==> SyncedAs(fs.sb, g.d, j, f.table[j]))
    requires fs.OthersKept(g, i)
    ensures fs.OthersKept(f, i)
  {
    hide SyncedAs;
    forall j | j in f.table && j != i
      ensures SameFile(f, fs.Now(), j)
    {
      SameFileTrans(f, g, fs.Now(), j);
    }
  }

  /** The file is ready for writei: in use, without holes, its inode in step with the disk. */
  ghost predicate Ready(fs: FileSys, f: File)
    reads fs, f, f.ip, f.ip.addrs
  {
    && fs.Valid() && fs.Holds(f.ip) && f.ip.kind != T_DEV && NoHoles(fs.Now(), f.ip.inum)
    && SyncedAs(fs.sb, fs.blocks, f.ip.inum, fs.table[f.ip.inum])
  }

  ghost function Bytes(fs: FileSys, f: File): (c: seq<Byte>)
    requires Ready(fs, f)
    reads fs, f, f.ip, f.ip.addrs
    ensures |c| == f.ip.size
  {
    Contents(fs.Now(), f.ip.inum)
  }

  lemma BytesOnDisk(fs: FileSys, f: File)
    requires Ready(fs, f)
    ensures DiskMeta(fs.sb, fs.blocks, f.ip.inum).size == f.ip.size <= MAXFILE * BSIZE
    ensures forall x: nat :: x < f.ip.size ==> Bytes(fs, f)[x] == DiskByte(fs.sb, fs.blocks, f.ip.inum, x)
  {
    hide DiskMeta, DiskByte;
    ContentsOnDisk(fs.sb, fs.Now(), f.ip.inum);
  }

  /** One transaction: begin_op, ilock, writei, iunlock, end_op. */
  method WriteChunk(fs: FileSys, f: File, src: seq<Byte>) returns (w: Option<int>)
    requires Ready(fs, f) && 0 < |src| <= MAXWRITE
    modifies fs, f, f.ip`size, f.ip.addrs
    ensures |fs.logged| <= LogMachine.MAXOPBLOCKS || w.None?
    ensures w.None? ==> forall c: nat :: c < fs.sb.size ==> Bit(fs.sb, fs.blocks, c)
    ensures w.Some? ==> Ready(fs, f) && fs.OthersKept(old(fs.Now()), f.ip.inum) && f.writable == old(f.writable)
    ensures w == Some(-1) <==> old(f.off > f.ip.size || f.off + |src| > MAXFILE * BSIZE)
    ensures w == Some(-1) ==> f.off == old(f.off) && Bytes(fs, f) == old(Bytes(fs, f))
    ensures w.Some? && w.value != -1 ==>
              && w.value == |src| && f.off == old(f.off) + |src| <= f.ip.size
              && Bytes(fs, f) == Splice(old(Bytes(fs, f)), old(f.off), src)
  {
    hide FsInv, SyncedAs, SameFile, Addr, Mapped, Contents, Splice, Bit;
    fs.BeginOp();
    w := fs.WriteI(f.ip, src, f.off, None);
    if w.Some? && w.value > 0 {
      f.off := f.off + w.value;
    }
    assert fs.logged - {} == fs.logged;
  }

  /** filewrite(f, src, n). None is the panic of a full disk. written counts the bytes that
      reached the file and costs the distinct blocks each transaction logged. "short
      filewrite" cannot happen. */
  method FileWrite(fs: FileSys, f: File, src: seq<Byte>, n: int)
    returns (r: Option<int>, ghost written: nat, ghost costs: seq<nat>)
    requires n <= |src| && Ready(fs, f)
    modifies fs, f, f.ip`size, f.ip.addrs
    ensures forall c :: c in costs ==> c <= LogMachine.MAXOPBLOCKS
    ensures r.None? ==> forall c: nat :: c < fs.sb.size ==> Bit(fs.sb, fs.blocks, c)
    ensures r.Some? ==> Ready(fs, f) && fs.OthersKept(old(fs.Now()), f.ip.inum)
    ensures r.Some? ==> written <= |src| && f.off == old(f.off) + written
    ensures r.Some? ==> r.value == if n >= 0 && written == n && old(f.writable) then n else -1
    ensures r.Some? && written > 0 ==> old(f.off <= f.ip.size)
    ensures r.Some? && old(f.off <= f.ip.size) ==>
              Bytes(fs, f) == Splice(old(Bytes(fs, f)), old(f.off), src[..written])
    ensures r.Some? && old(f.off > f.ip.size) ==> Bytes(fs, f) == old(Bytes(fs, f))
    ensures r.Some? ==> DiskMeta(fs.sb, fs.blocks, f.ip.inum).size == f.ip.size <= MAXFILE * BSIZE
    ensures r.Some? && old(f.off <= f.ip.size) ==>
              && f.ip.size == old(Max(f.off + written, f.ip.size))
              && forall x: nat :: x < f.ip.size ==>
                   DiskByte(fs.sb, fs.blocks, f.ip.inum, x) ==
                     if old(f.off) <= x < old(f.off) + written then src[x - old(f.off)]
                     else DiskByte(fs.sb, old(fs.blocks), f.ip.inum, x)
    ensures r.Some? ==>
              (r.value == n && n > 0 <==>
               old(f.writable) && n > 0 && old(f.off <= f.ip.size && f.off + n <= MAXFILE * BSIZE))
  {
    hide Ready, Bytes, Splice, DiskMeta, DiskByte, Bit;
    BytesOnDisk(fs, f);
    written, costs := 0, [];
    ghost var f0, id, c0, off0 := fs.Now(), f.ip.inum, Bytes(fs, f), f.off;
    OthersRefl(fs, f0, id);
    if off0 <= |c0| {
      SpliceNothing(c0, off0);
      SplicedByte(c0, off0, []);
      assert src[..0] == [];
    }
    if !f.writable {
      return Some(-1), 0, [];
    }
    var i := 0;
    while i < n
      invariant 0 <= i && (i <= n || i == 0) && written == i && f.off == off0 + i && f.writable
      invariant Ready(fs, f) && fs.OthersKept(f0, id)
      invariant forall c :: c in costs ==> c <= LogMachine.MAXOPBLOCKS
      invariant off0 <= |c0| ==> f.off <= f.ip.size && Bytes(fs, f) == Splice(c0, off0, src[..i])
      invariant off0 > |c0| ==> i == 0 && f.ip.size == |c0| && Bytes(fs, f) == c0
      invariant i > 0 ==> f.off <= MAXFILE * BSIZE
    {
      var n1 := n - i;
      if n1 > MAXWRITE {
        n1 := MAXWRITE;
      }
      ghost var g := fs.Now();
      var w := WriteChunk(fs, f, src[i..i + n1]);
      if w.None? {
        return None, i, costs;
      }
      costs := costs + [|fs.logged|];
      OthersTrans(fs, f0, g, id);
      if w.value < 0 {
        break;
      }
      assert w.value == n1;
      SpliceSplice(c0, off0, src[..i], src[i..i + n1]);
      assert src[..i] + src[i..i + n1] == src[..i + n1];
      i := i + w.value;
      written := i;
    }
    BytesOnDisk(fs, f);
    if off0 <= |c0| {
      SplicedByte(c0, off0, src[..i]);
    }
    return Some(if i == n then n else -1), i, costs;
  }
}
