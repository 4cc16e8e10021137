/** log.c itself: the fields of `struct log`, the device and the pinned buffers, and the
    functions that update them. Each block write is recorded as a step of LogMachine, so every
    state these methods pass through is a state of a run from boot, where a crash may come. */
module Log {
  import opened Common
  import opened Blocks
  import opened LogMachine

  lemma OneMore(run: seq<Event>, k: nat)
    ensures run + seq(k, _ => DiskStep) + [DiskStep] == run + seq(k + 1, _ => DiskStep)
  {
    assert seq(k + 1, _ => DiskStep) == seq(k, _ => DiskStep) + [DiskStep];
  }

  lemma SlotNotPinned(sb: Super, s: State, i: nat)
    requires Inv(sb, s) && i < |s.lh|
    ensures sb.Slot(i) !in s.cache && sb.start !in s.cache
  {
    hide Entries, HeaderOk, OnDisk, Counters;
  }

  lemma HeadWords(h: Block, lh: Header)
    ensures Word(HeadBlock(h, lh), 0) == |lh| && forall i :: 0 <= i < |lh| ==> Word(HeadBlock(h, lh), 1 + i) == lh[i]
    ensures forall k: nat :: |lh| < k < WORDS ==> Word(HeadBlock(h, lh), k) == Word(h, k)
  {
    hide Word, PutWords;
    WordPutWords(h, 0, [|lh|] + lh, 0);
    forall i | 0 <= i < |lh|
      ensures Word(HeadBlock(h, lh), 1 + i) == lh[i]
    {
      WordPutWords(h, 0, [|lh|] + lh, 1 + i);
    }
    forall k: nat | |lh| < k < WORDS
      ensures Word(HeadBlock(h, lh), k) == Word(h, k)
    {
      WordPutWords(h, 0, [|lh|] + lh, k);
    }
  }

  /** What recovery makes of a disk, word by word of its header block. */
  lemma RecoveredIs(sb: Super, d: Disk)
    requires HeaderOk(sb, d)
    ensures Word(At(d, sb.start), 0) <= LOGSIZE
    ensures forall k: nat :: 1 <= k <= Word(At(d, sb.start), 0) ==>
              Recovered(sb, d, Word(At(d, sb.start), k)) == At(d, sb.start + k)
    ensures forall b: nat :: (forall k: nat :: 1 <= k <= Word(At(d, sb.start), 0) ==> Word(At(d, sb.start), k) != b) ==>
              Recovered(sb, d, b) == At(d, b)
  {
    hide Word;
    var h := At(d, sb.start);
    var e := Entries(h);
    forall k: nat | 1 <= k <= Word(h, 0)
      ensures Recovered(sb, d, Word(h, k)) == At(d, sb.start + k)
    {
      assert e[k - 1] == Word(h, k);
    }
    assert forall i: nat :: i < |e| ==> e[i] == Word(h, 1 + i);
    forall b: nat | forall k: nat :: 1 <= k <= Word(h, 0) ==> Word(h, k) != b
      ensures Recovered(sb, d, b) == At(d, b)
    {
    }
  }

  lemma ListedAreHome(sb: Super, d: Disk)
    requires HeaderOk(sb, d)
    ensures Word(At(d, sb.start), 0) <= LOGSIZE
    ensures forall k: nat :: 1 <= k <= Word(At(d, sb.start), 0) ==> sb.Home(d, Word(At(d, sb.start), k))
  {
    hide Word;
    var h := At(d, sb.start);
    forall k: nat | 1 <= k <= Word(h, 0)
      ensures sb.Home(d, Word(h, k))
    {
      assert Entries(h)[k - 1] == Word(h, k);
    }
  }

  lemma NothingInstalled(sb: Super, s: State)
    requires Inv(sb, s) && (s.phase.WriteLog? || s.phase.Done?)
    ensures forall b :: Recovered(sb, s.disk, b) == At(s.disk, b)
  {
    hide HeaderOk, ListOk;
  }

  /** After a commit the disk holds what was seen before it. */
  lemma CommittedHome(sb: Super, s: State, f: State)
    requires Abs(sb, f) == Act(Abs(sb, s), LogMachine.Commit) && Inv(sb, f) && f.phase == Idle && f.lh == []
    ensures forall b :: sb.Home(f.disk, b) ==> At(f.disk, b) == Seen(sb, s, b)
  {
    hide Recovered, Inv;
    IdleIsInstalled(sb, f);
    forall b | sb.Home(f.disk, b)
      ensures Recovered(sb, f.disk, b) == Seen(sb, s, b)
    {
      assert b in Abs(sb, f).durable;
      assert b in Abs(sb, s).current;
    }
  }

  /** After recovery the disk holds what its header block said. */
  lemma RecoveredHome(sb: Super, s: State, f: State)
    requires Inv(sb, s) && Abs(sb, f).durable == Abs(sb, s).durable && Inv(sb, f) && f.phase == Idle && f.lh == []
    ensures forall b :: sb.Home(f.disk, b) ==> At(f.disk, b) == Recovered(sb, s.disk, b)
    ensures forall b :: sb.Home(s.disk, b) ==> sb.Home(f.disk, b)
  {
    hide Recovered, Inv;
    IdleIsInstalled(sb, f);
    forall b | sb.Home(f.disk, b)
      ensures Recovered(sb, f.disk, b) == Recovered(sb, s.disk, b)
    {
      assert b in Abs(sb, f).durable;
      assert b in Abs(sb, s).durable;
    }
    forall b | sb.Home(s.disk, b)
      ensures sb.Home(f.disk, b)
    {
      assert b in Abs(sb, s).durable;
      assert b in Abs(sb, f).durable;
    }
  }

  lemma BootHeader(sb: Super, s: State)
    requires Inv(sb, s)
    ensures HeaderOk(sb, s.disk)
    ensures s.phase == Idle ==> Word(At(s.disk, sb.start), 0) == 0
  {
  }

  lemma PassedIsOpen(sb: Super, s: State, p: nat)
    requires Inv(sb, s) && p in s.passed
    ensures p in s.ops
  {
  }

  lemma TesterIsOpen(sb: Super, s: State, p: nat)
    requires Inv(sb, s) && p in s.ops
    ensures s.outstanding >= 1
  {
  }

  lemma InvControl(sb: Super, s: State)
    requires Inv(sb, s)
    ensures Control(s)
  {
  }

  lemma RebootIsEmpty(sb: Super, s: State)
    requires Inv(sb, s) && s.phase == Reboot
    ensures s.cache == map[] && !s.committing && Word(At(s.disk, sb.start), 0) <= LOGSIZE
  {
  }

  lemma HeadNotPinned(sb: Super, s: State)
    requires Inv(sb, s)
    ensures sb.start !in s.cache
  {
    hide Entries, HeaderOk, OnDisk, Counters;
  }

  lemma DoneIsEmpty(sb: Super, s: State)
    requires Inv(sb, s) && s.phase == Done
    ensures s.cache == map[] && s.lh == [] && Act(Abs(sb, s), LogMachine.Commit) == Abs(sb, s)
  {
    hide Recovered;
    assert Abs(sb, s).current == Abs(sb, s).durable;
  }

  /** With no transaction in memory and none on disk, the home blocks are what is durable. */
  lemma IdleIsInstalled(sb: Super, s: State)
    requires Inv(sb, s) && s.phase == Idle && s.lh == []
    ensures s.cache == map[] && forall b :: Recovered(sb, s.disk, b) == At(s.disk, b)
  {
    hide Entries, HeaderOk, ListOk, Counters;
    NoPins(s.cache);
  }

  lemma {:induction false} FindIs(q: seq<Uint32>, b: nat, i: nat)
    requires i <= |q| && (forall j :: 0 <= j < i ==> q[j] != b) && (i < |q| ==> q[i] == b)
    ensures Find(q, b) == i
  {
    if i > 0 {
      FindIs(q[1..], b, i - 1);
    }
  }

  class Log {
    const sb: Super
    var disk: Disk
    var cache: Disk
    var n: nat
    const block: array<Uint32>
    var outstanding: nat
    var committing: bool
    ghost var ops: map<nat, nat>
    ghost var passed: set<nat>
    ghost var asleep: set<nat>
    ghost var phase: Phase
    ghost const boot: State
    ghost var run: seq<Event>

    ghost predicate Shape()
      reads this, block
    {
      block.Length == LOGSIZE && n <= LOGSIZE
    }

    ghost function Now(): State
      requires Shape()
      reads this, block
    {
      State(disk, cache, block[..n], outstanding, committing, ops, passed, asleep, phase)
    }

    ghost predicate Valid()
      reads this, block
    {
      Shape() && Boot(sb, boot) && ValidRun(sb, boot, run) && Final(sb, boot, run) == Now() && Inv(sb, Now())
    }

    /** The fields have just been changed as event e changes state s, the last state recorded. */
    ghost method Record(e: Event, s: State)
      requires Shape() && Boot(sb, boot) && ValidRun(sb, boot, run) && Final(sb, boot, run) == s
      requires Inv(sb, s) && Can(sb, s, e) && !Overfills(sb, s, e) && Now() == Do(sb, s, e)
      modifies this`run
      ensures Valid() && Now() == old(Now()) && run == old(run) + [e]
      ensures Abs(sb, Now()) == Act(Abs(sb, s), Label(s, e))
    {
      RunAppend(sb, boot, run, e);
      StepRefines(sb, s, e);
      run := run + [e];
    }

    /** Record for an append, which may overfill the log. */
    ghost method RecordAppend(e: Event, s: State)
      requires Shape() && Boot(sb, boot) && ValidRun(sb, boot, run) && Final(sb, boot, run) == s
      requires e.Append? && Inv(sb, s) && Can(sb, s, e) && Now() == Do(sb, s, e)
      modifies this`run
      ensures Shape() && run == old(run) + [e] && ValidRun(sb, boot, run) && Final(sb, boot, run) == Now()
      ensures Valid() <==> !Overfills(sb, s, e)
      ensures Abs(sb, Now()) == Abs(sb, s).(current := Abs(sb, s).current[e.b := e.v])
    {
      hide Inv, Abs, Boot, ValidRun, Final, Entries, HeadBlock;
      if !Overfills(sb, s, e) {
        Record(e, s);
      } else {
        RunAppend(sb, boot, run, e);
        AbsOfMemoryStep(sb, s, e);
        OverfillBreaks(sb, s, e);
        run := run + [e];
      }
    }

    /** The machine starts over a disk whose log header is well formed. */
    constructor (sb: Super, disk: Disk)
      requires HeaderOk(sb, disk)
      ensures Valid() && this.sb == sb && this.disk == disk && phase == Reboot && fresh(block)
    {
      this.sb := sb;
      this.disk := disk;
      cache := map[];
      n, block := 0, new Uint32[LOGSIZE];
      outstanding, committing := 0, false;
      ops, passed, asleep, phase, run := map[], {}, {}, Reboot, [];
      boot := State(disk, map[], [], 0, false, map[], {}, {}, Reboot);
      new;
      assert Now() == boot;
    }

    function Bread(b: nat): Block
      reads this
    {
      if b in cache then cache[b] else At(disk, b)
    }

    /** bwrite hands the block to the disk, which clears B_DIRTY. */
    method Bwrite(b: nat, v: Block)
      modifies this`disk, this`cache
      ensures disk == old(disk)[b := v] && cache == old(cache) - {b}
    {
      disk := disk[b := v];
      cache := cache - {b};
    }

    method ReadHead()
      requires Valid() && phase == Reboot
      modifies this, block
      ensures Valid() && phase == Install(0) && run == old(run) + [DiskStep]
      ensures block[..n] == Entries(At(disk, sb.start)) && disk == old(disk)
      ensures n == Word(At(disk, sb.start), 0) && forall i :: 0 <= i < n ==> block[i] == Word(At(disk, sb.start), 1 + i)
      ensures Abs(sb, Now()) == old(Abs(sb, Now())) && !committing
    {
      hide Inv, Abs, Boot, ValidRun, Final, HeadBlock;
      ghost var s := Now();
      RebootIsEmpty(sb, s);
      var lh := Bread(sb.start);
      assert lh == At(disk, sb.start);
      n := Word(lh, 0);
      var i := 0;
      while i < n
        invariant Shape() && i <= n == Word(lh, 0)
        invariant forall j :: 0 <= j < i ==> block[j] == Word(lh, 1 + j)
        invariant cache == s.cache && disk == s.disk && outstanding == s.outstanding
        invariant committing == s.committing && ops == s.ops && passed == s.passed && asleep == s.asleep
        invariant phase == s.phase
        invariant run == old(run)
      {
        block[i] := Word(lh, 1 + i);
        i := i + 1;
      }
      assert block[..n] == Entries(lh);
      phase := Install(0);
      Record(DiskStep, s);
    }

    /** One turn of install_trans's loop. */
    method InstallBlock(tail: nat)
      requires Valid() && phase == Install(tail) && tail < n
      modifies `disk, `cache, `phase, `run
      ensures Valid() && phase == Install(tail + 1) && run == old(run) + [DiskStep]
      ensures disk == old(disk)[block[tail] := At(old(disk), sb.start + tail + 1)]
      ensures Abs(sb, Now()) == old(Abs(sb, Now()))
    {
      hide Inv, Abs, Boot, ValidRun, Final, Entries, HeadBlock;
      ghost var s := Now();
      var lbuf := Bread(sb.start + tail + 1);
      SlotNotPinned(sb, s, tail);
      Bwrite(block[tail], lbuf);
      phase := Install(tail + 1);
      assert Now() == Do(sb, s, DiskStep);
      Record(DiskStep, s);
    }

    /** Copies log blocks 0..n to their home locations, one disk write each. */
    method InstallTrans()
      requires Valid() && phase == Install(0)
      modifies `disk, `cache, `phase, `run
      ensures Valid() && phase == Install(n) && n == old(n)
      ensures run == old(run) + seq(n, _ => DiskStep)
      ensures Abs(sb, Now()) == old(Abs(sb, Now()))
      ensures committing == old(committing) && block[..n] == old(block[..n])
    {
      hide Inv, Abs, Boot, ValidRun, Final, Entries, HeadBlock, Now;
      assert seq(0, _ => DiskStep) == [];
      var tail := 0;
      while tail < n
        invariant Valid() && tail <= n == old(n) && block[..n] == old(block[..n]) && phase == Install(tail)
        invariant run == old(run) + seq(tail, _ => DiskStep)
        invariant Abs(sb, Now()) == old(Abs(sb, Now()))
        invariant committing == old(committing)
      {
        InstallBlock(tail);
        OneMore(old(run), tail);
        tail := tail + 1;
      }
    }

    /** Stores n and the n entries in the header block and writes that block. */
    method WriteHead()
      requires Shape() && sb.start !in cache
      modifies this`disk, this`cache
      ensures disk == old(disk)[sb.start := HeadBlock(At(old(disk), sb.start), block[..n])]
      ensures Word(At(disk, sb.start), 0) == n
      ensures forall i :: 0 <= i < n ==> Word(At(disk, sb.start), 1 + i) == block[i]
      ensures forall k: nat :: n < k < WORDS ==> Word(At(disk, sb.start), k) == Word(At(old(disk), sb.start), k)
      ensures cache == old(cache)
    {
      hide SetWord;
      var hb0 := Bread(sb.start);
      var hb := SetWord(hb0, 0, n);
      assert hb == PutWords(hb0, 0, [n]) by { PutWordsSnoc(hb0, 0, [], n); }
      var i := 0;
      while i < n
        invariant i <= n && hb == PutWords(hb0, 0, [n] + block[..i])
        invariant disk == old(disk) && cache == old(cache)
      {
        PutWordsSnoc(hb0, 0, [n] + block[..i], block[i]);
        assert [n] + block[..i] + [block[i]] == [n] + block[..i + 1];
        hb := SetWord(hb, 1 + i, block[i]);
        i := i + 1;
      }
      assert [n] + block[..n] == [|block[..n]|] + block[..n];
      assert cache - {sb.start} == cache;
      Bwrite(sb.start, hb);
      HeadWords(hb0, block[..n]);
    }

    /** One turn of write_log's loop. */
    method WriteLogBlock(tail: nat)
      requires Valid() && phase == WriteLog(tail) && tail < n
      modifies `disk, `cache, `phase, `run
      ensures Valid() && phase == WriteLog(tail + 1) && run == old(run) + [DiskStep]
      ensures disk == old(disk)[sb.start + tail + 1 := old(Bread(block[tail]))]
      ensures Abs(sb, Now()) == old(Abs(sb, Now()))
    {
      hide Inv, Abs, Boot, ValidRun, Final, Entries, HeadBlock;
      ghost var s := Now();
      SlotNotPinned(sb, s, tail);
      var from := Bread(block[tail]);
      Bwrite(sb.start + tail + 1, from);
      phase := WriteLog(tail + 1);
      assert Now() == Do(sb, s, DiskStep);
      Record(DiskStep, s);
    }

    /** Copies the pinned blocks to log blocks 0..n, one disk write each. */
    method WriteLogBlocks()
      requires Valid() && phase == WriteLog(0)
      modifies `disk, `cache, `phase, `run
      ensures Valid() && phase == WriteLog(n) && n == old(n) && block[..n] == old(block[..n])
      ensures run == old(run) + seq(n, _ => DiskStep)
      ensures Abs(sb, Now()) == old(Abs(sb, Now()))
    {
      hide Inv, Abs, Boot, ValidRun, Final, Entries, HeadBlock, Now;
      assert seq(0, _ => DiskStep) == [];
      var tail := 0;
      while tail < n
        invariant Valid() && tail <= n == old(n) && block[..n] == old(block[..n]) && phase == WriteLog(tail)
        invariant run == old(run) + seq(tail, _ => DiskStep)
        invariant Abs(sb, Now()) == old(Abs(sb, Now()))
      {
        WriteLogBlock(tail);
        OneMore(old(run), tail);
        tail := tail + 1;
      }
    }

    /** Empties the header in memory and on disk once everything is installed. */
    method ClearHead()
      requires Valid() && phase == Install(n)
      modifies `disk, `cache, `phase, `run, `n
      ensures Valid() && n == 0 && phase == (if committing then Done else Idle)
      ensures run == old(run) + [DiskStep]
      ensures Abs(sb, Now()) == old(Abs(sb, Now())) && committing == old(committing)
    {
      hide Inv, Abs, Boot, ValidRun, Final, Entries, HeadBlock;
      ghost var s := Now();
      HeadNotPinned(sb, s);
      n := 0;
      WriteHead();
      assert block[..0] == [];
      phase := if committing then Done else Idle;
      Record(DiskStep, s);
    }

    /** write_head at the end of write_log: the one disk write that commits the transaction. */
    method CommitPoint()
      requires Valid() && phase == WriteLog(n)
      modifies `disk, `cache, `phase, `run
      ensures Valid() && phase == Install(0) && run == old(run) + [DiskStep]
      ensures Abs(sb, Now()) == Act(old(Abs(sb, Now())), LogMachine.Commit)
    {
      hide Inv, Abs, Boot, ValidRun, Final, Entries, HeadBlock;
      ghost var s := Now();
      HeadNotPinned(sb, s);
      WriteHead();
      phase := Install(0);
      Record(DiskStep, s);
    }

    /** 2n + 2 disk writes that commit: to the log, to the header, to the home blocks, to the
        header. The effect on the atomic disk is that what operations saw becomes durable. */
    method Commit()
      requires Valid() && committing && phase == (if n > 0 then WriteLog(0) else Done)
      modifies `disk, `cache, `phase, `run, `n
      ensures Valid() && committing && phase == Done && n == 0
      ensures run == old(run) + seq(if old(n) > 0 then 2 * old(n) + 2 else 0, _ => DiskStep)
      ensures Abs(sb, Now()) == Act(old(Abs(sb, Now())), LogMachine.Commit)
    {
      hide Inv, Abs, Boot, ValidRun, Final, Entries, HeadBlock;
      ghost var s := Now();
      if n > 0 {
        WriteLogBlocks();
        CommitPoint();
        InstallTrans();
        ClearHead();
        assert run == old(run) + seq(2 * |s.lh| + 2, _ => DiskStep);
      } else {
        DoneIsEmpty(sb, s);
        assert run == old(run) + seq(0, _ => DiskStep);
      }
    }

    /** At boot: read the header, install what it lists, erase it. Afterwards every home block
        holds on disk what was durable when the machine came up. */
    method RecoverFromLog()
      requires Valid() && phase == Reboot
      modifies this, block
      ensures Valid() && phase == Idle && n == 0 && cache == map[] && !committing
      ensures Abs(sb, Now()) == old(Abs(sb, Now()))
      ensures forall b :: sb.Home(disk, b) ==> At(disk, b) == old(Recovered(sb, disk, b))
      ensures Word(At(disk, sb.start), 0) == 0 && Word(At(old(disk), sb.start), 0) <= LOGSIZE
      ensures forall k: nat :: 1 <= k <= Word(At(old(disk), sb.start), 0) ==>
                At(disk, Word(At(old(disk), sb.start), k)) == At(old(disk), sb.start + k)
      ensures forall b ::
                && sb.Home(disk, b)
                && (forall k: nat :: 1 <= k <= Word(At(old(disk), sb.start), 0) ==>
                     Word(At(old(disk), sb.start), k) != b)
                ==> At(disk, b) == At(old(disk), b)
    {
      hide Inv, Boot, ValidRun, Final, Entries, HeadBlock, HeaderOk, Recovered, Word, Abs;
      ghost var s0 := Now();
      BootHeader(sb, s0);
      RecoveredIs(sb, disk);
      ListedAreHome(sb, disk);
      RebootIsEmpty(sb, s0);
      ReadHead();
      InstallTrans();
      ClearHead();
      ghost var s1 := Now();
      IdleIsInstalled(sb, s1);
      BootHeader(sb, s1);
      RecoveredHome(sb, s0, s1);
    }

    /** One turn of begin_op's loop for process p: it is admitted, or goes to sleep on &log. */
    method BeginOp(ghost p: nat) returns (admitted: bool)
      requires Valid() && !Recovering(Now()) && p !in ops && p !in asleep
      modifies this
      ensures Valid() && run == old(run) + [Begin(p)]
      ensures admitted <==> !old(committing) && old(n) + (old(outstanding) + 1) * MAXOPBLOCKS <= LOGSIZE
      ensures outstanding == old(outstanding) + if admitted then 1 else 0
      ensures ops == if admitted then old(ops)[p := 0] else old(ops)
      ensures asleep == if admitted then old(asleep) else old(asleep) + {p}
      ensures Abs(sb, Now()) == old(Abs(sb, Now()))
    {
      hide Inv, Abs, Boot, ValidRun, Final, Entries, HeadBlock;
      ghost var s := Now();
      if committing {
        asleep := asleep + {p};
        admitted := false;
      } else if n + (outstanding + 1) * MAXOPBLOCKS > LOGSIZE {
        asleep := asleep + {p};
        admitted := false;
      } else {
        outstanding := outstanding + 1;
        ops := ops[p := 0];
        admitted := true;
      }
      Record(Begin(p), s);
    }

    /** log_write's tests, made without the lock; !ok is a panic. */
    method WriteTest(ghost p: nat) returns (ok: bool)
      requires Valid() && p in ops && p !in passed
      modifies `passed, `run
      ensures Valid() && ok == !old(Panics(sb, Now(), LogTest(p)))
      ensures ok <==> n < LOGSIZE && n < sb.size - 1
      ensures ok ==> run == old(run) + [LogTest(p)] && passed == old(passed) + {p}
      ensures !ok ==> run == old(run) && passed == old(passed)
      ensures Abs(sb, Now()) == old(Abs(sb, Now()))
    {
      hide Inv, Abs, Boot, ValidRun, Final, Entries, HeadBlock;
      ghost var s := Now();
      TesterIsOpen(sb, s, p);
      if n >= LOGSIZE || n + 1 >= sb.size {
        return false;
      }
      if outstanding < 1 {
        return false;
      }
      passed := passed + {p};
      Record(LogTest(p), s);
      ok := true;
    }

    /** log_write's search for the block it absorbs into. */
    method FindSlot(b: Uint32) returns (i: nat)
      requires Shape()
      ensures i == Find(block[..n], b)
      ensures i <= n && (i < n ==> block[i] == b) && (i == n <==> b !in block[..n])
    {
      i := 0;
      while i < n && block[i] != b
        invariant i <= n && forall j :: 0 <= j < i ==> block[j] != b
      {
        i := i + 1;
      }
      FindIs(block[..n], b, i);
    }

    /** The rest of log_write, under the lock, for a buffer of block b whose data is now v. Whatever else
        happened since the test, the block is listed once and seen by all operations; but the log is
        sound afterwards exactly when there is still a slot for the block. */
    method WriteAppend(ghost p: nat, b: Uint32, v: Block)
      requires Valid() && p in passed && sb.Home(disk, b) && ArrayRoom(Now(), b)
      modifies this, block
      ensures Shape() && run == old(run) + [Append(p, b, v)] && ValidRun(sb, boot, run) && Final(sb, boot, run) == Now()
      ensures Valid() <==> !old(Overfills(sb, Now(), Append(p, b, v)))
      ensures Abs(sb, Now()) == old(Abs(sb, Now())).(current := old(Abs(sb, Now())).current[b := v])
      ensures disk == old(disk) && cache == old(cache)[b := v] && passed == old(passed) - {p}
      ensures block[..n] == if b in old(block[..n]) then old(block[..n]) else old(block[..n]) + [b]
    {
      hide Inv, Abs, Boot, ValidRun, Final, Entries, HeadBlock;
      ghost var s := Now();
      PassedIsOpen(sb, s, p);
      var i := FindSlot(b);
      block[i] := b;
      if i == n {
        n := n + 1;
        ops := ops[p := ops[p] + 1];
        assert block[..n] == s.lh + [b];
      } else {
        assert block[..n] == s.lh;
      }
      cache := cache[b := v];
      passed := passed - {p};
      RecordAppend(Append(p, b, v), s);
    }

    /** end_op's first critical section: the last operation out is to commit, the others wake the sleepers. */
    method Leave(ghost p: nat) returns (doCommit: bool)
      requires Valid() && p in ops && p !in passed
      modifies `outstanding, `ops, `committing, `phase, `asleep, `run
      ensures Valid() && outstanding == old(outstanding) - 1 && ops == old(ops) - {p}
      ensures doCommit == committing && (doCommit <==> old(outstanding) == 1)
      ensures doCommit ==> phase == (if n > 0 then WriteLog(0) else Done)
      ensures !doCommit ==> asleep == {}
      ensures Abs(sb, Now()) == old(Abs(sb, Now()))
    {
      hide Inv, Abs, Boot, ValidRun, Final, Entries, HeadBlock;
      ghost var s := Now();
      InvControl(sb, s);
      CommitIsExclusive(sb, s, End(p));
      outstanding := outstanding - 1;
      ops := ops - {p};
      doCommit := outstanding == 0;
      if doCommit {
        committing := true;
        phase := if n > 0 then WriteLog(0) else Done;
      } else {
        asleep := {};
      }
      Record(End(p), s);
    }

    /** end_op's second critical section: the commit is over and the sleepers wake. */
    method Committed()
      requires Valid() && committing && phase == Done && n == 0
      modifies `committing, `phase, `asleep, `run
      ensures Valid() && !committing && phase == Idle && asleep == {}
      ensures Abs(sb, Now()) == old(Abs(sb, Now()))
    {
      hide Inv, Abs, Boot, ValidRun, Final, Entries, HeadBlock;
      ghost var s := Now();
      committing, asleep, phase := false, {}, Idle;
      Record(Finish, s);
    }

    /** What the last operation out does once it has let the lock go. */
    method CommitAll()
      requires Valid() && committing && phase == (if n > 0 then WriteLog(0) else Done)
      modifies `disk, `cache, `phase, `run, `n, `committing, `asleep
      ensures Valid() && !committing && phase == Idle && n == 0 && asleep == {}
      ensures Abs(sb, Now()) == Act(old(Abs(sb, Now())), LogMachine.Commit)
      ensures forall b :: sb.Home(disk, b) ==> At(disk, b) == old(Bread(b))
    {
      hide Inv, Abs, Boot, ValidRun, Final, Entries, HeadBlock;
      ghost var s0 := Now();
      NothingInstalled(sb, s0);
      Commit();
      Committed();
      CommittedHome(sb, s0, Now());
    }

    /** end_op by process p. The last operation out commits and wakes the sleepers. */
    method EndOp(ghost p: nat)
      requires Valid() && p in ops && p !in passed
      modifies this
      ensures Valid() && outstanding == old(outstanding) - 1 && ops == old(ops) - {p}
      ensures asleep == {} && !committing
      ensures Abs(sb, Now()) ==
              if old(outstanding) == 1 then Act(old(Abs(sb, Now())), LogMachine.Commit) else old(Abs(sb, Now()))
      ensures old(outstanding) == 1 ==> n == 0 && phase == Idle
      ensures old(outstanding) == 1 ==> forall b :: sb.Home(disk, b) ==> At(disk, b) == old(Bread(b))
    {
      hide Inv, Abs, Boot, ValidRun, Final, Entries, HeadBlock, Now;
      var doCommit := Leave(p);
      if doCommit {
        CommitAll();
      }
    }
  }
}
