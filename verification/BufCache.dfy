/** bio.c: NBUF buffers in a circular doubly linked list, most recently used first. Each method
    is one critical section (under bcache.lock, or of the holder of a buffer's sleep lock), so
    whatever holds of each of them holds of every interleaving of processes. */
module BufCache {
  import opened Common
  import opened Blocks

  const NBUF: nat := 30

  /** A device number and a block number. */
  type Key = (nat, nat)
  type Disk = map<Key, Block>

  function At(d: Disk, k: Key): Block {
    if k in d then d[k] else ZeroBlock()
  }

  class Buf {
    var dev: nat
    var blockno: nat
    var valid: bool
    var dirty: bool
    var locked: bool
    var pid: nat
    var refcnt: nat
    var prev: Buf
    var next: Buf
    var qnext: Buf?             // the disk driver's queue
    var data: Block
    ghost var users: set<nat>   // the processes that bget returned this buffer to

    constructor ()
      ensures Initial()
      ensures prev == this && next == this
    {
      dev, blockno, valid, dirty, locked, pid, refcnt, data := 0, 0, false, false, false, 0, 0, ZeroBlock();
      prev, next, qnext, users := this, this, null, {};
    }

    ghost predicate Initial()
      reads `dev, `blockno, `valid, `dirty, `locked, `refcnt, `users
    {
      dev == 0 && blockno == 0 && !valid && !dirty && !locked && refcnt == 0 && users == {}
    }

    function Key(): Key
      reads `dev, `blockno
    {
      (dev, blockno)
    }

    predicate HeldBy(p: nat)
      reads this
    {
      locked && pid == p
    }
  }

  /** next runs through the ring r = head, b1, b2, ... and back to head; prev the other way. */
  ghost predicate IsRing(r: seq<Buf>)
    reads r`next, r`prev
  {
    && |r| > 0
    && (forall i :: 0 <= i < |r| ==> r[i].next == r[if i + 1 < |r| then i + 1 else 0])
    && (forall i :: 0 <= i < |r| ==> r[i].prev == r[if i > 0 then i - 1 else |r| - 1])
  }

  ghost function Without(r: seq<Buf>, k: nat): seq<Buf>
    requires k < |r|
  {
    r[..k] + r[k + 1..]
  }

  lemma WithoutAt(r: seq<Buf>, k: nat)
    requires k < |r| && Distinct(r)
    ensures |Without(r, k)| == |r| - 1 && Distinct(Without(r, k)) && r[k] !in Without(r, k)
    ensures forall i :: 0 <= i < |r| - 1 ==> Without(r, k)[i] == if i < k then r[i] else r[i + 1]
  {
  }

  /** The neighbours of a place in the ring without r[k]. */
  lemma WithoutNext(r: seq<Buf>, k: nat, i: nat)
    requires 0 < k < |r| && i < |r| - 1
    ensures var w, j, n := Without(r, k), if i < k then i else i + 1, if k + 1 < |r| then k + 1 else 0;
            && w[i] == r[j] && j != k
            && w[if i + 1 < |w| then i + 1 else 0] == r[if j == k - 1 then n else if j + 1 < |r| then j + 1 else 0]
            && w[if i > 0 then i - 1 else |w| - 1] == r[if j == n then k - 1 else if j > 0 then j - 1 else |r| - 1]
  {
  }

  /** Takes r[k] out of the ring. */
  method Unlink(b: Buf, ghost r: seq<Buf>, ghost k: nat)
    requires Distinct(r) && 0 < k < |r| && r[k] == b && IsRing(r)
    modifies r`next, r`prev
    ensures IsRing(Without(r, k)) && Distinct(Without(r, k)) && b !in Without(r, k)
  {
    ghost var n := if k + 1 < |r| then k + 1 else 0;
    assert b.prev == r[k - 1] && b.next == r[n];
    b.next.prev := b.prev;
    b.prev.next := b.next;
    forall j: nat | j < |r|
      ensures r[j].next == r[if j == k - 1 then n else if j + 1 < |r| then j + 1 else 0]
      ensures r[j].prev == r[if j == n then k - 1 else if j > 0 then j - 1 else |r| - 1]
    {
      assert j != k - 1 ==> r[j] != r[k - 1];
      assert j != n ==> r[j] != r[n];
    }
    WithoutAt(r, k);
    hide Without, Distinct;
    ghost var w := Without(r, k);
    forall i: nat | i < |w|
      ensures w[i].next == w[if i + 1 < |w| then i + 1 else 0]
      ensures w[i].prev == w[if i > 0 then i - 1 else |w| - 1]
    {
      WithoutNext(r, k, i);
    }
  }

  /** Puts b at the head of the list, after r[0]. */
  method InsertFront(head: Buf, b: Buf, ghost r: seq<Buf>)
    requires Distinct(r) && |r| > 0 && r[0] == head && b !in r && IsRing(r)
    modifies b`next, b`prev, r`next, r`prev
    ensures IsRing([head, b] + r[1..]) && Distinct([head, b] + r[1..])
  {
    assert head.next == r[if 1 < |r| then 1 else 0];
    b.next := head.next;
    b.prev := head;
    head.next.prev := b;
    head.next := b;
    ghost var r' := [head, b] + r[1..];
    assert forall i :: 0 <= i < |r'| ==> r'[i] == if i == 0 then head else if i == 1 then b else r[i - 1];
  }

  ghost function Elements(r: seq<Buf>): set<Buf> {
    set b | b in r
  }

  lemma FrontElements(r: seq<Buf>, b: Buf)
    requires |r| > 0
    ensures Elements([r[0], b] + r[1..]) == Elements(r) + {b}
  {
    var r' := [r[0], b] + r[1..];
    forall x | x in r
      ensures x in r'
    {
      var i :| 0 <= i < |r| && r[i] == x;
      assert r'[if i == 0 then 0 else i + 1] == x;
    }
  }

  lemma WithoutElements(r: seq<Buf>, k: nat)
    requires 0 < k < |r| && Distinct(r)
    ensures Elements(Without(r, k)) == Elements(r) - {r[k]} && Without(r, k)[0] == r[0]
  {
    forall x | x in r && x != r[k]
      ensures x in Without(r, k)
    {
      var i :| 0 <= i < |r| && r[i] == x;
      assert Without(r, k)[if i < k then i else i - 1] == x;
    }
  }

  class BufCache {
    const head: Buf
    ghost var ring: seq<Buf>    // head, then the buffers from most to least recently used
    ghost var bufs: set<Buf>
    var disk: Disk
    ghost var latest: Disk      // what was last logged or written for each block

    /** A buffer that has data has the latest, unless its holder is changing it, and what is on
        disk is older only while the buffer is pinned. */
    ghost predicate BufOk(b: Buf)
      reads `latest, `disk, b`dev, b`blockno, b`valid, b`dirty, b`locked, b`pid, b`refcnt, b`data, b`users
    {
      && (b.locked ==> b.pid in b.users) && b.refcnt == |b.users| && (b.dirty ==> b.valid)
      && (b.valid && b.Key() != (0, 0) ==>
           && (b.locked || b.data == At(latest, b.Key()))
           && (b.dirty || At(disk, b.Key()) == At(latest, b.Key())))
    }

    /** No block but the initial (0, 0) is held by two buffers. */
    ghost predicate UniqueKeys()
      reads `bufs, `latest, `disk, bufs`dev, bufs`blockno
    {
      forall b, c :: b in bufs && c in bufs && b.Key() == c.Key() && b != c ==> b.Key() == (0, 0)
    }

    /** A block whose disk copy is old is pinned in the cache. */
    ghost predicate OldIsPinned()
      reads `bufs, `latest, `disk, bufs`dev, bufs`blockno, bufs`dirty
    {
      forall k: Key :: At(disk, k) != At(latest, k) && k != (0, 0) ==>
        exists b :: b in bufs && b.Key() == k && b.dirty
    }

    ghost predicate RingOk()
      reads this, ring`next, ring`prev
    {
      RingOf(NBUF)
    }

    ghost predicate RingOf(n: nat)
      reads this, ring`next, ring`prev
    {
      && |ring| == n + 1 && ring[0] == head && Distinct(ring) && IsRing(ring)
      && Elements(ring) == bufs + {head} && head !in bufs
    }

    ghost predicate Coherent()
      reads `bufs, `latest, `disk, bufs`dev, bufs`blockno, bufs`valid, bufs`dirty, bufs`locked, bufs`pid
      reads bufs`refcnt, bufs`data, bufs`users
    {
      (forall b :: b in bufs ==> BufOk(b)) && UniqueKeys() && OldIsPinned()
    }

    ghost predicate Valid()
      reads this, ring, bufs
    {
      RingOk() && Coherent()
    }

    ghost predicate Cached(k: Key)
      reads this, bufs
    {
      exists b :: b in bufs && b.Key() == k
    }

    ghost predicate Free(b: Buf)
      reads b
    {
      b.refcnt == 0 && !b.dirty
    }

    /** binit, over a disk nobody has written through the cache yet. */
    constructor (disk: Disk)
      ensures Valid() && this.disk == disk && latest == disk && fresh(bufs) && fresh(head)
    {
      var h := new Buf();
      head, ring, bufs := h, [h], {};
      this.disk, latest := disk, disk;
      new;
      var n := 0;
      while n < NBUF
        invariant n <= NBUF && RingOf(n) && fresh(head) && fresh(bufs) && forall x :: x in ring ==> fresh(x)
        invariant this.disk == latest == disk
        invariant forall b :: b in bufs ==> b.Initial()
      {
        hide RingOf;
        var b := new Buf();
        AddBuffer(b, n);
        n := n + 1;
      }
      InitialCoherent();
    }

    lemma InitialCoherent()
      requires latest == disk && forall b :: b in bufs ==> b.Initial()
      ensures Coherent()
    {
    }

    method AddBuffer(b: Buf, ghost n: nat)
      requires RingOf(n) && b !in ring
      modifies `ring, `bufs, b`next, b`prev, (set x | x in ring)`next, (set x | x in ring)`prev
      ensures RingOf(n + 1) && bufs == old(bufs) + {b} && forall x :: x in ring ==> x in old(ring) || x == b
    {
      hide IsRing, Distinct;
      InsertFront(head, b, ring);
      FrontElements(ring, b);
      ring := [head, b] + ring[1..];
      bufs := bufs + {b};
    }

    /** The critical section of bget for process p. The buffer of the block if there is one;
        else the least recently used buffer that is neither referenced nor pinned, taken over;
        null is the panic "bget: no buffers". */
    method Bget(dev: nat, blockno: nat, ghost p: nat) returns (r: Buf?)
      requires Valid() && forall b :: b in bufs && b.Key() == (dev, blockno) ==> p !in b.users
      modifies bufs
      ensures Valid()
      ensures r == null <==>
                forall b :: b in bufs ==> old(b.refcnt > 0 || b.dirty) && !old(b.dev == dev && b.blockno == blockno)
      ensures r != null ==>
                && r in bufs && r.Key() == (dev, blockno) && p in r.users
                && r.users == (if old(r.Key()) == (dev, blockno) then old(r.users) else {}) + {p}
      ensures r != null && old(Cached((dev, blockno))) ==>
                old(r.Key()) == (dev, blockno) && r.valid == old(r.valid) && r.dirty == old(r.dirty) &&
                r.locked == old(r.locked) && r.pid == old(r.pid) && r.data == old(r.data)
      ensures r != null && !old(Cached((dev, blockno))) ==>
                && !r.valid && !r.dirty && !r.locked && old(r.refcnt == 0 && !r.dirty)
                && exists k :: 0 < k < |ring| && ring[k] == r &&
                     forall j :: k < j < |ring| ==> !old(ring[j].refcnt == 0 && !ring[j].dirty)
      ensures forall b :: b in bufs && b != r ==> unchanged(b)
    {
      hide IsRing, Distinct, Elements, Coherent;
      r := Lookup(dev, blockno);
      if r != null {
        Ref(r, p);
        return;
      }
      r := FindFree();
      if r != null {
        TakeOver(r, dev, blockno, p);
      }
    }

    method Ref(b: Buf, ghost p: nat)
      requires b in bufs && Coherent() && p !in b.users
      modifies b`refcnt, b`users
      ensures Coherent() && b.users == old(b.users) + {p}
    {
      b.refcnt := b.refcnt + 1;
      b.users := b.users + {p};
      forall k: Key | At(disk, k) != At(latest, k) && k != (0, 0)
        ensures exists c :: c in bufs && c.Key() == k && c.dirty
      {
        var c :| c in bufs && old(c.Key()) == k && old(c.dirty);
        assert c.Key() == k && c.dirty;
      }
    }

    /** A free buffer becomes the buffer of another block. */
    method TakeOver(b: Buf, dev: nat, blockno: nat, ghost p: nat)
      requires b in bufs && Coherent() && Free(b) && !Cached((dev, blockno))
      modifies b
      ensures Coherent() && b.Key() == (dev, blockno) && b.users == {p} && !b.valid && !b.dirty && !b.locked
      ensures b.next == old(b.next) && b.prev == old(b.prev)
    {
      b.dev := dev;
      b.blockno := blockno;
      b.valid, b.dirty := false, false;
      b.refcnt := 1;
      b.users := {p};
      forall k: Key | At(disk, k) != At(latest, k) && k != (0, 0)
        ensures exists c :: c in bufs && c.Key() == k && c.dirty
      {
        var c :| c in bufs && old(c.Key()) == k && old(c.dirty);
        assert c != b && c.Key() == k && c.dirty;
      }
    }

    /** bget's first loop, from the most recently used buffer on. */
    method Lookup(dev: nat, blockno: nat) returns (b: Buf?)
      requires RingOk()
      ensures b != null ==> b in bufs && b.Key() == (dev, blockno)
      ensures b == null ==> !Cached((dev, blockno))
    {
      b := head.next;
      ghost var i := 1;
      while b != head
        invariant b != null && 1 <= i <= |ring| && b == ring[if i < |ring| then i else 0]
        invariant forall j :: 1 <= j < i ==> ring[j].Key() != (dev, blockno)
        decreases |ring| - i
      {
        if b.dev == dev && b.blockno == blockno {
          assert b in Elements(ring);
          return b;
        }
        b := b.next;
        i := i + 1;
      }
      forall c | c in bufs
        ensures c.Key() != (dev, blockno)
      {
        assert c in Elements(ring);
      }
      return null;
    }

    /** bget's second loop, from the least recently used buffer on. */
    method FindFree() returns (b: Buf?)
      requires RingOk()
      ensures b != null ==> b in bufs && b.refcnt == 0 && !b.dirty
      ensures b != null ==>
                exists k :: 0 < k < |ring| && ring[k] == b &&
                  forall j :: k < j < |ring| ==> !(ring[j].refcnt == 0 && !ring[j].dirty)
      ensures b == null ==> forall c :: c in bufs ==> c.refcnt > 0 || c.dirty
    {
      b := head.prev;
      ghost var i := |ring| - 1;
      while b != head
        invariant b != null && 0 <= i < |ring| && b == ring[i]
        invariant forall j :: i < j < |ring| ==> !Free(ring[j])
        decreases i
      {
        if b.refcnt == 0 && !b.dirty {
          assert b in Elements(ring);
          return b;
        }
        b := b.prev;
        i := i - 1;
      }
      forall c | c in bufs
        ensures !Free(c)
      {
        assert c in Elements(ring);
      }
      return null;
    }

    /** acquiresleep of a buffer that bget returned to process p, once it is not locked. */
    method AcquireSleep(b: Buf, p: nat)
      requires Valid() && b in bufs && p in b.users && !b.locked
      modifies b`locked, b`pid
      ensures Valid() && b.HeldBy(p)
      ensures b.valid && b.Key() != (0, 0) ==> b.data == At(latest, b.Key())
    {
      hide IsRing, Distinct, Elements;
      assert BufOk(b);
      b.locked, b.pid := true, p;
      KeepsPins();
    }

    /** The rest of bread: read the block if the buffer has no data. Either way the holder now
        has the latest data. */
    method Fill(b: Buf, p: nat)
      requires Valid() && b in bufs && b.HeldBy(p) && b.Key() != (0, 0)
      requires b.valid ==> b.data == At(latest, b.Key())
      modifies b`valid, b`data
      ensures Valid() && b.valid && b.data == At(latest, b.Key())
    {
      hide IsRing, Distinct, Elements;
      if !b.valid {
        NotPinnedIsOnDisk(b);
        b.data := At(disk, b.Key());
        b.valid := true;
        KeepsPins();
      }
    }

    /** bread after bget's critical section, from the moment the buffer's lock is free: p holds it
        with what was last logged or written for its block. */
    method BreadLocked(b: Buf, p: nat)
      requires Valid() && b in bufs && p in b.users && !b.locked && b.Key() != (0, 0)
      modifies b`locked, b`pid, b`valid, b`data
      ensures Valid() && b.HeldBy(p) && b.valid && b.data == At(latest, b.Key())
    {
      hide RingOk;
      AcquireSleep(b, p);
      Fill(b, p);
    }

    /** bread for process p, when nobody else holds the block's buffer: it returns the buffer
        held, with what was last logged or written for the block, or panics with null. When
        somebody does, Bget and then BreadLocked say the same. */
    method Bread(dev: nat, blockno: nat, p: nat) returns (b: Buf?)
      requires Valid() && (dev, blockno) != (0, 0)
      requires forall c :: c in bufs && c.Key() == (dev, blockno) ==> p !in c.users && !c.locked
      modifies bufs
      ensures Valid()
      ensures b == null <==>
                forall c :: c in bufs ==> old(c.refcnt > 0 || c.dirty) && !old(c.dev == dev && c.blockno == blockno)
      ensures b != null ==>
                b in bufs && b.dev == dev && b.blockno == blockno && b.locked && b.pid == p && p in b.users
      ensures b != null ==> b.valid && b.data == At(latest, (dev, blockno))
      ensures forall c :: c in bufs && c != b ==> unchanged(c)
    {
      hide RingOk;
      b := Bget(dev, blockno, p);
      if b != null {
        BreadLocked(b, p);
      }
    }

    /** The holder changes the data; nobody else can see that until it is logged or written. */
    method Modify(b: Buf, p: nat, v: Block)
      requires Valid() && b in bufs && b.HeldBy(p)
      modifies b`data
      ensures Valid() && b.data == v
    {
      hide IsRing, Distinct, Elements;
      b.data := v;
      KeepsPins();
    }

    /** log_write: pins the buffer and makes its data the latest. */
    method LogWrite(b: Buf, p: nat)
      requires Valid() && b in bufs && b.HeldBy(p) && b.valid && b.Key() != (0, 0)
      modifies b`dirty, `latest
      ensures Valid() && b.dirty && latest == old(latest)[b.Key() := b.data] && disk == old(disk)
    {
      hide IsRing, Distinct, Elements;
      b.dirty := true;
      latest := latest[b.Key() := b.data];
      PinsAfterSync(b);
      OthersCoherent(b);
    }

    /** bwrite: the data goes to disk, the buffer is no longer pinned. !ok is the panic. */
    method Bwrite(b: Buf, p: nat) returns (ok: bool)
      requires Valid() && b in bufs && b.Key() != (0, 0) && b.valid
      modifies b`dirty, `latest, `disk
      ensures Valid() && ok == b.HeldBy(p)
      ensures ok ==> !b.dirty && latest == old(latest)[b.Key() := b.data] && disk == old(disk)[b.Key() := b.data]
      ensures !ok ==> latest == old(latest) && disk == old(disk) && b.dirty == old(b.dirty)
    {
      hide IsRing, Distinct, Elements;
      if !b.HeldBy(p) {
        return false;
      }
      disk := disk[b.Key() := b.data];
      latest := latest[b.Key() := b.data];
      b.dirty := false;
      PinsAfterSync(b);
      OthersCoherent(b);
      return true;
    }

    /** brelse's releasesleep. The holder must have logged or written what it changed. */
    method ReleaseSleep(b: Buf, p: nat) returns (ok: bool)
      requires Valid() && b in bufs
      requires b.HeldBy(p) && b.valid && b.Key() != (0, 0) ==> b.data == At(latest, b.Key())
      modifies b`locked, b`pid
      ensures Valid() && ok == old(b.HeldBy(p))
      ensures ok ==> !b.locked
      ensures !ok ==> unchanged(b)
    {
      hide IsRing, Distinct, Elements;
      if !b.HeldBy(p) {
        return false;
      }
      b.locked, b.pid := false, 0;
      KeepsPins();
      return true;
    }

    /** brelse's critical section: drop the reference, and with the last one move the buffer to
        the most recently used end. */
    method Unref(b: Buf, ghost p: nat)
      requires Valid() && b in bufs && p in b.users && !b.HeldBy(p)
      modifies `ring, b`refcnt, b`users, ring`next, ring`prev
      ensures Valid() && b.users == old(b.users) - {p} && bufs == old(bufs)
      ensures b.users != {} ==> ring == old(ring)
      ensures b.users == {} ==> exists k ::
                0 < k < |old(ring)| && old(ring)[k] == b && ring == [head, b] + Without(old(ring), k)[1..]
    {
      hide IsRing, Distinct, Elements, Coherent;
      DropRef(b, p);
      if b.refcnt == 0 {
        MoveToFront(b);
      }
    }

    method DropRef(b: Buf, ghost p: nat)
      requires Coherent() && b in bufs && p in b.users && !b.HeldBy(p)
      modifies b`refcnt, b`users
      ensures Coherent() && b.users == old(b.users) - {p} && (b.refcnt == 0 <==> b.users == {})
    {
      b.refcnt := b.refcnt - 1;
      b.users := b.users - {p};
      KeepsPins();
    }

    /** brelse: both of its critical sections. !ok is the panic. */
    method Brelse(b: Buf, p: nat) returns (ok: bool)
      requires Valid() && b in bufs
      requires b.HeldBy(p) && b.valid && b.Key() != (0, 0) ==> b.data == At(latest, b.Key())
      modifies `ring, b, ring`next, ring`prev
      ensures Valid() && ok == old(b.HeldBy(p))
      ensures ok ==> !b.locked && b.users == old(b.users) - {p}
      ensures b.Key() == old(b.Key()) && b.valid == old(b.valid) && b.dirty == old(b.dirty) && b.data == old(b.data)
      ensures !ok || b.users != {} ==> ring == old(ring)
      ensures ok && b.users == {} ==> exists k ::
                0 < k < |old(ring)| && old(ring)[k] == b && ring == [head, b] + Without(old(ring), k)[1..]
    {
      hide RingOk;
      assert b.HeldBy(p) ==> p in b.users by { assert BufOk(b); }
      ok := ReleaseSleep(b, p);
      if ok {
        Unref(b, p);
      }
    }

    method MoveToFront(b: Buf)
      requires RingOk() && b in bufs
      modifies `ring, ring`next, ring`prev
      ensures RingOk()
      ensures exists k ::
                0 < k < |old(ring)| && old(ring)[k] == b && ring == [head, b] + Without(old(ring), k)[1..]
    {
      hide IsRing, Distinct;
      assert b in Elements(ring);
      ghost var k :| 0 <= k < |ring| && ring[k] == b;
      ghost var w := Without(ring, k);
      WithoutElements(ring, k);
      WithoutAt(ring, k);
      Unlink(b, ring, k);
      FrontElements(w, b);
      hide Elements;
      InsertFront(head, b, w);
      ring := [head, b] + w[1..];
    }

    twostate lemma KeepsPins()
      requires old(OldIsPinned()) && latest == old(latest) && disk == old(disk) && bufs == old(bufs)
      requires forall b :: b in bufs ==> b.Key() == old(b.Key()) && b.dirty == old(b.dirty)
      ensures OldIsPinned()
    {
      forall k: Key | At(disk, k) != At(latest, k) && k != (0, 0)
        ensures exists c :: c in bufs && c.Key() == k && c.dirty
      {
        var c :| c in bufs && old(c.Key()) == k && old(c.dirty);
        assert c.Key() == k && c.dirty;
      }
    }

    /** Only the block of b has new contents. */
    twostate predicate OnlyBlockOf(b: Buf)
      reads this, bufs, b
    {
      && bufs == old(bufs) && b in bufs
      && (forall c :: c in bufs ==> c.Key() == old(c.Key()) && (c != b ==> unchanged(c)))
      && (forall k: Key :: k != b.Key() ==> At(disk, k) == At(old(disk), k) && At(latest, k) == At(old(latest), k))
    }

    twostate lemma PinsAfterSync(b: Buf)
      requires old(OldIsPinned()) && OnlyBlockOf(b)
      requires b.dirty || At(disk, b.Key()) == At(latest, b.Key())
      ensures OldIsPinned()
    {
      forall k: Key | At(disk, k) != At(latest, k) && k != (0, 0)
        ensures exists c :: c in bufs && c.Key() == k && c.dirty
      {
        if k == b.Key() {
          assert b in bufs && b.Key() == k && b.dirty;
        } else {
          var c :| c in bufs && old(c.Key()) == k && old(c.dirty);
          assert c.Key() == k && c.dirty;
        }
      }
    }

    twostate lemma OthersCoherent(b: Buf)
      requires old(Coherent()) && OnlyBlockOf(b) && b.Key() != (0, 0)
      ensures forall c :: c in bufs && c != b ==> BufOk(c)
      ensures UniqueKeys()
    {
    }

    lemma NotPinnedIsOnDisk(b: Buf)
      requires Coherent() && b in bufs && !b.dirty && b.Key() != (0, 0)
      ensures At(disk, b.Key()) == At(latest, b.Key())
    {
    }
  }
}
