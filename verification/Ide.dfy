/** ide.c: the interrupt-driven disk with its queue of requests, and memide.c, the synchronous disk
    that it refines. Each method of Driver is one critical section under idelock, or a step of the
    device; one interrupt follows each command, and the device reports no error. */
module Ide {
  import opened Blocks
  import opened BufCache

  const FSSIZE := 1000

  /** What the driver asks of the disk. A read carries no data. */
  datatype Request = Request(k: Key, write: bool, data: Block)

  /** The device: idle, at work on a command, or done with it and holding what a read got. */
  datatype Command = Idle | Busy(r: Request) | Finished(r: Request, got: Block)

  /** idestart uses only the low bit of the device number. */
  function DiskKey(b: Buf): Key
    reads b`dev, b`blockno
  {
    var low: nat := b.dev % 2;
    (low, b.blockno)
  }

  /** Buffers of the two disks for different blocks have different places on them. */
  lemma KeysApart(a: Buf, b: Buf)
    requires a.dev < 2 && b.dev < 2 && DiskKey(a) == DiskKey(b)
    ensures a.dev == b.dev && a.blockno == b.blockno
  {
  }

  /** The drive and the block that the device takes from its registers 0x1f3 to 0x1f6. */
  function Selected(r3: nat, r4: nat, r5: nat, r6: nat): Key {
    var drive: nat, sector: nat := r6 / 0x10 % 2, r3 + 0x100 * r4 + 0x1_0000 * r5 + 0x100_0000 * (r6 % 0x10);
    (drive, sector)
  }

  function Asks(b: Buf): Request
    reads b`dev, b`blockno, b`dirty, b`data
  {
    Request(DiskKey(b), b.dirty, if b.dirty then b.data else ZeroBlock())
  }

  /** Neither the driver nor memide takes a request for a buffer that is valid and clean. */
  predicate Synced(b: Buf)
    reads b`valid, b`dirty
  {
    b.valid && !b.dirty
  }

  // ----- The synchronous disk -----

  function Apply(d: Disk, r: Request): Disk {
    if r.write then d[r.k := r.data] else d
  }

  /** The contents of the buffer after the request. */
  function Got(d: Disk, r: Request): Block {
    if r.write then r.data else At(d, r.k)
  }

  /** The disk after requests rs, one at a time and in order. */
  function Replay(d: Disk, rs: seq<Request>): Disk {
    if rs == [] then d else Apply(Replay(d, rs[..|rs| - 1]), rs[|rs| - 1])
  }

  /** The last write to k among rs, or -1. */
  function LastWrite(rs: seq<Request>, k: Key): (i: int)
    ensures -1 <= i < |rs| && (i >= 0 ==> rs[i].write && rs[i].k == k)
    ensures forall j :: i < j < |rs| ==> !(rs[j].write && rs[j].k == k)
  {
    var n := |rs| - 1;
    if rs == [] then -1 else if rs[n].write && rs[n].k == k then n else LastWrite(rs[..n], k)
  }

  /** A block holds the data of the last write to it, or what it held at the start. */
  lemma {:induction false} ReadsLastWrite(d: Disk, rs: seq<Request>, k: Key)
    ensures var i := LastWrite(rs, k); At(Replay(d, rs), k) == if i < 0 then At(d, k) else rs[i].data
  {
    if rs != [] {
      ReadsLastWrite(d, rs[..|rs| - 1], k);
    }
  }

  /** memide.c: the whole disk in memory. */
  class MemDisk {
    var disk: Disk
    const size: nat

    constructor (image: Disk, blocks: nat)
      ensures disk == image && size == blocks
    {
      disk, size := image, blocks;
    }

    method Rw(b: Buf)
      requires b.locked && !Synced(b) && b.dev == 1 && b.blockno < size
      modifies `disk, b`valid, b`dirty, b`data
      ensures disk == Apply(old(disk), old(Asks(b)))
      ensures b.valid && !b.dirty && b.data == Got(old(disk), old(Asks(b))) && b.data == At(disk, DiskKey(b))
      ensures disk == if old(b.dirty) then old(disk)[(1, b.blockno) := old(b.data)] else old(disk)
      ensures b.data == if old(b.dirty) then old(b.data) else At(old(disk), (1, b.blockno))
    {
      var p := (1, b.blockno);
      if b.dirty {
        b.dirty := false;
        disk := disk[p := b.data];
      } else {
        b.data := At(disk, p);
      }
      b.valid := true;
    }
  }

  // ----- The queue -----

  predicate NextIs(q: seq<Buf>, i: nat)
    requires i < |q|
    reads {q[i]}`qnext
  {
    q[i].qnext == if i + 1 < |q| then q[i + 1] else null
  }

  /** Following qnext from head runs through q once and ends. */
  ghost predicate IsQueue(head: Buf?, q: seq<Buf>)
    reads q`qnext
  {
    && (forall i, j :: 0 <= i < j < |q| ==> q[i] != q[j])
    && head == (if q == [] then null else q[0])
    && forall i :: 0 <= i < |q| ==> NextIs(q, i)
  }

  lemma QueueAt(head: Buf?, q: seq<Buf>, i: nat)
    requires IsQueue(head, q) && i < |q|
    ensures head == q[0] && q[i].qnext == if i + 1 < |q| then q[i + 1] else null
  {
    assert NextIs(q, i);
  }

  lemma PopQueue(head: Buf?, q: seq<Buf>)
    requires IsQueue(head, q) && q != []
    ensures head == q[0] && IsQueue(q[0].qnext, q[1..])
    ensures forall i :: 0 < i < |q| ==> q[i] != q[0]
  {
    var w := q[1..];
    QueueAt(head, q, 0);
    forall i: nat | i < |w|
      ensures NextIs(w, i)
    {
      assert w[i] == q[i + 1] && NextIs(q, i + 1);
    }
  }

  lemma QueueMore(head: Buf?, q: seq<Buf>, b: Buf)
    requires b !in q && b.qnext == null && head == (if q == [] then b else q[0])
    requires forall i, j :: 0 <= i < j < |q| ==> q[i] != q[j]
    requires (forall i :: 0 <= i < |q| - 1 ==> NextIs(q, i)) && (q != [] ==> q[|q| - 1].qnext == b)
    ensures IsQueue(head, q + [b])
  {
    var w := q + [b];
    forall i: nat | i < |w|
      ensures NextIs(w, i)
    {
      assert i < |q| - 1 ==> NextIs(q, i);
      assert i < |q| ==> w[i] == q[i];
      assert i + 1 < |w| ==> w[i + 1] == if i + 1 < |q| then q[i + 1] else b;
    }
  }

  /** The buffers whose holders are inside iderw. Those done hold what the disk holds. */
  ghost predicate Waiters(waiting: set<Buf>, disk: Disk)
    reads waiting`locked, waiting`valid, waiting`dirty, waiting`data, waiting`dev, waiting`blockno
  {
    && (forall b :: b in waiting ==> b.locked && b.blockno < FSSIZE && (Synced(b) ==> b.data == At(disk, DiskKey(b))))
    && forall a, b :: a in waiting && b in waiting && a != b ==> DiskKey(a) != DiskKey(b)
  }

  /** Those not done are queued. */
  ghost predicate Queued(queue: seq<Buf>, waiting: set<Buf>)
    reads waiting`valid, waiting`dirty
  {
    && (forall i :: 0 <= i < |queue| ==> queue[i] in waiting && !Synced(queue[i]))
    && forall b :: b in waiting && !Synced(b) ==> b in queue
  }

  /** The requests not yet served are those of the queue, in order. */
  ghost predicate InOrder(asked: seq<Request>, served: nat, queue: seq<Buf>)
    reads queue`dirty, queue`data, queue`dev, queue`blockno
  {
    |asked| == served + |queue| && forall i :: 0 <= i < |queue| ==> asked[served + i] == Asks(queue[i])
  }

  function Performed(served: nat, cmd: Command): nat {
    served + if cmd.Finished? then 1 else 0
  }

  /** The device works on the oldest request not yet served, if there is one, and the disk holds what
      the requests it has ended leave there. */
  ghost predicate InFlight(asked: seq<Request>, served: nat, cmd: Command, image: Disk, disk: Disk) {
    && served <= |asked| && (cmd.Idle? <==> served == |asked|)
    && (!cmd.Idle? ==> cmd.r == asked[served])
    && disk == Replay(image, asked[..Performed(served, cmd)])
    && (cmd.Finished? ==> cmd.got == At(disk, cmd.r.k))
  }

  lemma AskedMore(asked: seq<Request>, r: Request, served: nat, cmd: Command, image: Disk, disk: Disk)
    requires InFlight(asked, served, cmd, image, disk)
    ensures InFlight(asked + [r], served, if cmd.Idle? then Busy(r) else cmd, image, disk)
  {
    var n := Performed(served, cmd);
    assert (asked + [r])[..n] == asked[..n];
  }

  lemma Ended(asked: seq<Request>, served: nat, r: Request, image: Disk, disk: Disk)
    requires InFlight(asked, served, Busy(r), image, disk)
    ensures var d := Apply(disk, r); InFlight(asked, served, Finished(r, At(d, r.k)), image, d)
  {
    var n := served + 1;
    assert asked[..n][..n - 1] == asked[..served] && asked[..n][n - 1] == r;
  }

  /** The next command, and what the one just ended gave. */
  lemma Next(asked: seq<Request>, served: nat, r: Request, got: Block, image: Disk, disk: Disk)
    requires InFlight(asked, served, Finished(r, got), image, disk)
    ensures served < |asked| && asked[served] == r
    ensures InFlight(asked, served + 1, if served + 1 == |asked| then Idle else Busy(asked[served + 1]), image, disk)
    ensures Got(Replay(image, asked[..served]), r) == if r.write then r.data else got
    ensures r.write ==> At(disk, r.k) == r.data
  {
    var n := served + 1;
    assert asked[..n][..n - 1] == asked[..served] && asked[..n][n - 1] == r;
  }

  lemma AsksIs(b: Buf)
    ensures Asks(b).k == DiskKey(b) && Asks(b).write == b.dirty && (b.dirty ==> Asks(b).data == b.data)
  {
  }

  lemma QueueHead(head: Buf?, q: seq<Buf>)
    requires IsQueue(head, q)
    ensures head == (if q == [] then null else q[0])
  {
  }

  lemma Numbered(queue: seq<Buf>, waiting: set<Buf>, disk: Disk)
    requires Waiters(waiting, disk) && Queued(queue, waiting) && queue != []
    ensures queue[0].blockno < FSSIZE
  {
  }

  lemma WaitersMore(b: Buf, waiting: set<Buf>, disk: Disk)
    requires Waiters(waiting, disk) && b.locked && b.blockno < FSSIZE && !Synced(b)
    requires forall x :: x in waiting ==> DiskKey(x) != DiskKey(b)
    ensures Waiters(waiting + {b}, disk)
  {
  }

  lemma QueuedMore(b: Buf, queue: seq<Buf>, waiting: set<Buf>)
    requires Queued(queue, waiting) && b !in waiting && !Synced(b)
    ensures Queued(queue + [b], waiting + {b}) && b !in queue
  {
  }

  lemma InOrderMore(b: Buf, asked: seq<Request>, served: nat, queue: seq<Buf>)
    requires InOrder(asked, served, queue)
    ensures InOrder(asked + [Asks(b)], served, queue + [b])
  {
  }

  lemma InOrderTail(asked: seq<Request>, served: nat, queue: seq<Buf>)
    requires InOrder(asked, served, queue) && queue != []
    ensures InOrder(asked, served + 1, queue[1..]) && served < |asked| && asked[served] == Asks(queue[0])
  {
  }

  lemma NextAsks(asked: seq<Request>, served: nat, queue: seq<Buf>)
    requires InOrder(asked, served, queue)
    ensures served == |asked| <==> queue == []
    ensures queue != [] ==> served < |asked| && asked[served] == Asks(queue[0])
  {
  }

  lemma InFlightGot(asked: seq<Request>, served: nat, cmd: Command, image: Disk, disk: Disk)
    requires InFlight(asked, served, cmd, image, disk) && cmd.Finished?
    ensures cmd.got == At(disk, cmd.r.k)
  {
  }

  lemma TailQueue(queue: seq<Buf>)
    requires queue != []
    ensures forall i :: 0 <= i < |queue| - 1 ==> queue[1..][i] == queue[i + 1]
    ensures forall x :: x in queue <==> x == queue[0] || x in queue[1..]
  {
  }

  class Driver {
    const haveDisk1: bool
    var head: Buf?                 // idequeue
    var cmd: Command
    var disk: Disk
    ghost const image: Disk        // the disk at the start
    ghost var queue: seq<Buf>
    ghost var waiting: set<Buf>    // buffers whose holder is inside iderw
    ghost var asked: seq<Request>  // every request, in the order of the calls of iderw
    ghost var served: nat          // how many of them an interrupt has ended

    ghost predicate Valid()
      reads this, waiting, queue
    {
      && IsQueue(head, queue) && Waiters(waiting, disk) && Queued(queue, waiting) && InOrder(asked, served, queue)
      && InFlight(asked, served, cmd, image, disk)
    }

    constructor (contents: Disk, second: bool)
      ensures Valid() && waiting == {} && asked == [] && disk == contents && image == contents
    {
      haveDisk1, image := second, contents;
      head, cmd, disk, queue, waiting, asked, served := null, Idle, contents, [], {}, [], 0;
    }

    /** idestart. */
    method Start(b: Buf)
      requires b.blockno < FSSIZE
      modifies `cmd
      ensures cmd == Busy(Asks(b))
    {
      var sector := b.blockno;
      var r3, r4, r5 := sector % 0x100, sector / 0x100 % 0x100, sector / 0x1_0000 % 0x100;
      var r6 := 0xE0 + 0x10 * (b.dev % 2) + sector / 0x100_0000 % 0x10;
      cmd := Busy(Request(Selected(r3, r4, r5, r6), b.dirty, if b.dirty then b.data else ZeroBlock()));
    }

    /** iderw's walk to the end of idequeue. */
    method Append(b: Buf)
      requires IsQueue(head, queue) && b !in queue
      modifies `head, `queue, b`qnext, queue`qnext
      ensures queue == old(queue) + [b] && IsQueue(head, queue) && (head == b <==> old(queue) == [])
    {
      b.qnext := null;
      if head == null {
        head := b;
      } else {
        var pp: Buf := head;
        ghost var i := 0;
        while pp.qnext != null
          invariant 0 <= i < |queue| && pp == queue[i] && IsQueue(head, queue)
          invariant b.qnext == null && head == old(head) && queue == old(queue)
          decreases |queue| - i
        {
          QueueAt(head, queue, i);
          pp := pp.qnext;
          i := i + 1;
        }
        QueueAt(head, queue, i);
        pp.qnext := b;
      }
      QueueMore(head, queue, b);
      queue := queue + [b];
    }

    /** b joins the queue and the waiters; the device is not told yet. */
    method Enqueue(b: Buf)
      requires Valid() && b.locked && !Synced(b) && b.blockno < FSSIZE
      requires b !in waiting && forall x :: x in waiting ==> DiskKey(x) != DiskKey(b)
      modifies `head, `queue, `waiting, `asked, b`qnext, queue`qnext
      ensures IsQueue(head, queue) && Waiters(waiting, disk) && Queued(queue, waiting) && InOrder(asked, served, queue)
      ensures waiting == old(waiting) + {b} && queue == old(queue) + [b] && asked == old(asked) + [Asks(b)]
      ensures (head == b <==> old(queue) == []) && (old(queue) == [] <==> cmd.Idle?)
      ensures InFlight(asked, served, if cmd.Idle? then Busy(Asks(b)) else cmd, image, disk)
    {
      hide IsQueue, InFlight, Waiters, InOrder, Queued;
      AskedMore(asked, Asks(b), served, cmd, image, disk);
      IdleIffEmpty();
      WaitersMore(b, waiting, disk);
      QueuedMore(b, queue, waiting);
      InOrderMore(b, asked, served, queue);
      ghost var r := Asks(b);
      Append(b);
      assert Waiters(waiting + {b}, disk) && Queued(queue, waiting + {b}) && InOrder(asked + [r], served, queue);
      asked := asked + [r];
      waiting := waiting + {b};
    }

    /** iderw up to its wait. The caller holds the only buffer of its block, so nobody else is
        waiting for that block. */
    method Submit(b: Buf)
      requires Valid() && b.locked && !Synced(b) && (b.dev == 0 || haveDisk1) && b.blockno < FSSIZE
      requires b !in waiting && forall x :: x in waiting ==> DiskKey(x) != DiskKey(b)
      modifies `head, `cmd, `queue, `waiting, `asked, b`qnext, queue`qnext
      ensures Valid() && waiting == old(waiting) + {b} && queue == old(queue) + [b]
      ensures asked == old(asked) + [Asks(b)] && Asks(b).k == (if b.dev % 2 == 0 then 0 else 1, b.blockno)
      ensures Asks(b).write == b.dirty && (b.dirty ==> Asks(b).data == b.data)
      ensures disk == old(disk) && served == old(served)
    {
      hide IsQueue, InFlight, Waiters, InOrder, Queued, Synced;
      Enqueue(b);
      if head == b {
        Start(b);
      }
    }

    lemma IdleIffEmpty()
      requires Valid()
      ensures cmd.Idle? <==> queue == []
      ensures head == null <==> queue == []
      ensures !cmd.Idle? ==> cmd.r == Asks(queue[0])
    {
    }

    /** The device ends its command. */
    method Finish()
      requires Valid() && cmd.Busy?
      modifies `cmd, `disk
      ensures Valid() && cmd.Finished? && disk == Apply(old(disk), old(cmd).r) && cmd.got == At(disk, old(cmd).r.k)
      ensures disk == if old(cmd).r.write then old(disk)[old(cmd).r.k := old(cmd).r.data] else old(disk)
    {
      hide IsQueue, InFlight;
      var r := cmd.r;
      IdleIffEmpty();
      Ended(asked, served, r, image, disk);
      if r.write {
        disk := disk[r.k := r.data];
      }
      cmd := Finished(r, At(disk, r.k));
    }

    /** What ideintr does to the buffer it takes off the queue. */
    method Fill(b: Buf, got: Block)
      modifies b`valid, b`dirty, b`data
      ensures Synced(b) && b.data == if old(b.dirty) then old(b.data) else got
    {
      if !b.dirty {
        b.data := got;
      }
      b.valid := true;
      b.dirty := false;
    }

    /** And what that is to the queue and the waiters. */
    method Complete(b: Buf, got: Block)
      requires Waiters(waiting, disk) && Queued(queue, waiting) && queue != [] && b == queue[0]
      requires b.dirty ==> At(disk, DiskKey(b)) == b.data
      requires !b.dirty ==> At(disk, DiskKey(b)) == got
      requires forall i :: 0 < i < |queue| ==> queue[i] != b
      requires InOrder(asked, served + 1, queue[1..])
      modifies b`valid, b`dirty, b`data
      ensures Waiters(waiting, disk) && Queued(queue[1..], waiting) && InOrder(asked, served + 1, queue[1..])
      ensures Synced(b) && b.data == At(disk, DiskKey(b))
      ensures b.data == if old(b.dirty) then old(b.data) else got
    {
      Fill(b, got);
      assert Waiters(waiting, disk) by { hide Queued, InOrder; }
      assert InOrder(asked, served + 1, queue[1..]) by { hide Queued, Waiters; }
      assert Queued(queue[1..], waiting) by {
        hide Waiters, InOrder;
        TailQueue(queue);
      }
    }

    /** The end of ideintr: the device goes on to the next request. */
    method Restart()
      requires IsQueue(head, queue) && Waiters(waiting, disk) && Queued(queue, waiting) && InOrder(asked, served, queue)
      modifies `cmd
      ensures cmd == if queue == [] then Idle else Busy(Asks(queue[0]))
      ensures served == |asked| <==> queue == []
      ensures queue != [] ==> served < |asked| && cmd == Busy(asked[served])
    {
      QueueHead(head, queue);
      NextAsks(asked, served, queue);
      hide IsQueue;
      cmd := Idle;
      if head != null {
        Numbered(queue, waiting, disk);
        Start(head);
      }
    }

    /** ideintr takes b off the head of the queue and completes it. */
    method Take(b: Buf)
      requires Valid() && cmd.Finished? && head == b
      modifies `head, `queue, `served, b`valid, b`dirty, b`data
      ensures IsQueue(head, queue) && Waiters(waiting, disk) && Queued(queue, waiting) && InOrder(asked, served, queue)
      ensures old(queue) != [] && b == old(queue)[0] && queue == old(queue)[1..]
      ensures served == old(served) + 1 && served <= |asked|
      ensures InFlight(asked, served, if served == |asked| then Idle else Busy(asked[served]), image, disk)
      ensures Synced(b) && b.data == At(disk, DiskKey(b))
      ensures old(b.dirty) ==> b.data == old(b.data)
      ensures b.data == Got(Replay(image, asked[..served - 1]), asked[served - 1])
    {
      hide IsQueue, InFlight, Waiters, Queued, InOrder, Replay, DiskKey, Asks, Synced;
      IdleIffEmpty();
      AsksIs(b);
      PopQueue(head, queue);
      Next(asked, served, cmd.r, cmd.got, image, disk);
      InOrderTail(asked, served, queue);
      head := b.qnext;
      InFlightGot(asked, served, cmd, image, disk);
      Complete(b, cmd.got);
      queue := queue[1..];
      served := served + 1;
    }

    /** ideintr with a request at the head of the queue, b. */
    method Serve(b: Buf)
      requires Valid() && cmd.Finished? && head == b
      modifies `head, `cmd, `queue, `served, b`valid, b`dirty, b`data
      ensures Valid() && old(queue) != [] && b == old(queue)[0]
      ensures queue == old(queue)[1..] && served == old(served) + 1 && served <= |asked|
      ensures Synced(b) && b.data == At(disk, DiskKey(b))
      ensures old(b.dirty) ==> b.data == old(b.data)
      ensures b.data == Got(Replay(image, asked[..served - 1]), asked[served - 1])
      ensures cmd == if queue == [] then Idle else Busy(Asks(queue[0]))
    {
      hide IsQueue, InFlight, Waiters, Queued, InOrder, Replay, DiskKey, Asks, Synced, Got;
      Take(b);
      Restart();
    }

    /** ideintr. An interrupt with no request queued is ignored; otherwise the head is served, with the
        result that the synchronous disk would give if it did all requests in the order of the calls. */
    method Intr()
      requires Valid() && !cmd.Busy?
      modifies `head, `cmd, `queue, `served
      modifies (if queue == [] then {} else {queue[0]})`valid, (if queue == [] then {} else {queue[0]})`dirty
      modifies (if queue == [] then {} else {queue[0]})`data
      ensures Valid()
      ensures old(queue) == [] ==> unchanged(this)
      ensures old(queue) != [] ==>
                && var b := old(queue)[0];
                && queue == old(queue)[1..] && served == old(served) + 1 && served <= |asked|
                && b.valid && !b.dirty && b.data == At(disk, (if b.dev % 2 == 0 then 0 else 1, b.blockno))
                && (old(b.dirty) ==> b.data == old(b.data))
                && b.data == Got(Replay(image, asked[..served - 1]), asked[served - 1])
                && (cmd == if queue == [] then Idle else Busy(Asks(queue[0])))
    {
      hide IsQueue, InFlight, Waiters, Queued, InOrder, Got, Replay;
      IdleIffEmpty();
      if head == null {
        return;
      }
      QueueHead(head, queue);
      Serve(head);
    }

    /** The test of iderw's loop, by the holder of b: it returns, or sleeps with b still queued and the
        device at work, so that the interrupt that wakes it will come. */
    method Return(b: Buf) returns (done: bool)
      requires Valid() && b in waiting
      modifies `waiting
      ensures Valid() && (done <==> b.valid && !b.dirty)
      ensures done ==> waiting == old(waiting) - {b} && b.data == At(disk, (if b.dev % 2 == 0 then 0 else 1, b.blockno))
      ensures !done ==> waiting == old(waiting) && b in queue && !cmd.Idle?
    {
      hide IsQueue, InFlight;
      IdleIffEmpty();
      done := b.valid && !b.dirty;
      if done {
        waiting := waiting - {b};
      }
    }
  }
}
