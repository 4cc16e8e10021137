/** The redo log of log.c as a state machine whose steps are the critical sections under
    log.lock, the tests of log_write, which are made without that lock, the single block writes of
    commit() and recover_from_log(), and a crash. Any number of processes interleave freely. A
    crash forgets everything but the disk. */
module LogMachine {
  import opened Common
  import opened Blocks

  const MAXOPBLOCKS: nat := 10
  const LOGSIZE: nat := 30

  type Disk = map<nat, Block>
  type Header = lh: seq<Uint32> | |lh| <= LOGSIZE

  /** log.start and log.size, as the superblock gives them. */
  datatype Super = Super(start: nat, size: nat) {
    predicate InLog(b: nat) {
      start <= b < start + size
    }

    /** The log block that holds entry i of the header. */
    function Slot(i: nat): nat {
      start + 1 + i
    }

    predicate Home(d: Disk, b: nat) {
      b in d && !InLog(b)
    }
  }

  /** How far the one committer, or the recovery at boot, has come. */
  datatype Phase = Idle | WriteLog(tail: nat) | Install(tail: nat) | Done | Reboot

  /** cache holds the buffers pinned by B_DIRTY. ops maps each process between begin_op and
      end_op to the number of blocks it was the first to log; passed holds those of them that are
      in log_write, past its tests; asleep holds the processes that sleep on &log. */
  datatype State = State(
    disk: Disk, cache: Disk, lh: Header, outstanding: nat, committing: bool,
    ops: map<nat, nat>, passed: set<nat>, asleep: set<nat>, phase: Phase)

  datatype Event =
    | Begin(p: nat)
    | LogTest(p: nat)
    | Append(p: nat, b: Uint32, v: Block)
    | End(p: nat)
    | Woken(p: nat)
    | DiskStep
    | Finish
    | Crash

  function At(d: Disk, b: nat): Block {
    if b in d then d[b] else ZeroBlock()
  }

  /** The header block after write_head: words past the last entry keep what they held. */
  function HeadBlock(h: Block, lh: Header): Block {
    PutWords(h, 0, [|lh|] + lh)
  }

  /** The header as read_head reads it. */
  function Entries(h: Block): Header {
    var n := Word(h, 0);
    if n <= LOGSIZE then seq(n, i requires 0 <= i < n => Word(h, 1 + i)) else []
  }

  lemma EntriesOfHeadBlock(h: Block, lh: Header)
    ensures Word(HeadBlock(h, lh), 0) == |lh| && Entries(HeadBlock(h, lh)) == lh
  {
    var ws: seq<Uint32> := [|lh|] + lh;
    WordPutWords(h, 0, ws, 0);
    forall i | 0 <= i < |lh|
      ensures Word(HeadBlock(h, lh), 1 + i) == lh[i]
    {
      WordPutWords(h, 0, ws, 1 + i);
    }
  }

  /** The loop of log_write: the index of b in q, or |q| when b is not there. */
  function Find(q: seq<Uint32>, b: nat): (i: nat)
    ensures i <= |q| && (i < |q| ==> q[i] == b)
  {
    if q == [] then 0 else if q[0] == b then 0 else 1 + Find(q[1..], b)
  }

  lemma {:induction false} FindAppend(q: seq<Uint32>, x: Uint32, b: nat)
    ensures Find(q + [x], b) ==
            if Find(q, b) < |q| then Find(q, b) else if b == x then |q| else |q| + 1
  {
    if q == [] {
      assert [x][1..] == [];
    } else {
      assert (q + [x])[1..] == q[1..] + [x];
      FindAppend(q[1..], x, b);
    }
  }

  // ----- Steps -----

  predicate Recovering(s: State) {
    s.phase.Reboot? || (s.phase.Install? && !s.committing)
  }

  /** The condition under which begin_op sleeps. */
  predicate MustWait(s: State) {
    s.committing || |s.lh| + (s.outstanding + 1) * MAXOPBLOCKS > LOGSIZE
  }

  predicate Room(sb: Super, s: State) {
    |s.lh| < LOGSIZE && |s.lh| < sb.size - 1
  }

  /** The header array in memory takes block b. Past its end log_write would write elsewhere. */
  predicate ArrayRoom(s: State, b: nat) {
    Find(s.lh, b) < |s.lh| || |s.lh| < LOGSIZE
  }

  /** What the callers of log.c and the hardware may ask for. */
  predicate Enabled(sb: Super, s: State, e: Event) {
    match e
    case Begin(p) => !Recovering(s) && p !in s.ops && p !in s.asleep
    case LogTest(p) => p in s.ops && p !in s.passed
    case Append(p, b, v) => p in s.passed && p in s.ops && sb.Home(s.disk, b) && ArrayRoom(s, b)
    case End(p) => p in s.ops && p !in s.passed
    case Woken(p) => p in s.asleep
    case DiskStep => !s.phase.Idle? && !s.phase.Done?
    case Finish => s.phase.Done?
    case Crash => true
  }

  /** The panics of log_write and end_op. */
  predicate Panics(sb: Super, s: State, e: Event) {
    match e
    case LogTest(_) => !Room(sb, s) || s.outstanding < 1
    case End(_) => s.committing || s.outstanding < 1
    case _ => false
  }

  predicate Can(sb: Super, s: State, e: Event) {
    Enabled(sb, s, e) && !Panics(sb, s, e)
  }

  function DoDiskStep(sb: Super, s: State): State {
    match s.phase
    case WriteLog(t) =>
      if t < |s.lh| then
        var from := if s.lh[t] in s.cache then s.cache[s.lh[t]] else At(s.disk, s.lh[t]);
        s.(disk := s.disk[sb.Slot(t) := from], phase := WriteLog(t + 1))
      else
        s.(disk := s.disk[sb.start := HeadBlock(At(s.disk, sb.start), s.lh)], phase := Install(0))
    case Install(t) =>
      if t < |s.lh| then
        s.(disk := s.disk[s.lh[t] := At(s.disk, sb.Slot(t))],
           cache := s.cache - {s.lh[t]}, phase := Install(t + 1))
      else
        s.(disk := s.disk[sb.start := HeadBlock(At(s.disk, sb.start), [])], lh := [],
           phase := if s.committing then Done else Idle)
    case Reboot => s.(lh := Entries(At(s.disk, sb.start)), phase := Install(0))
    case _ => s
  }

  function Do(sb: Super, s: State, e: Event): State
    requires Can(sb, s, e)
  {
    match e
    case Begin(p) =>
      if MustWait(s) then s.(asleep := s.asleep + {p})
      else s.(outstanding := s.outstanding + 1, ops := s.ops[p := 0])
    case LogTest(p) => s.(passed := s.passed + {p})
    case Append(p, b, v) =>
      var t := s.(cache := s.cache[b := v], passed := s.passed - {p});
      if Find(s.lh, b) < |s.lh| then t else t.(lh := s.lh + [b], ops := s.ops[p := s.ops[p] + 1])
    case End(p) =>
      var s' := s.(outstanding := s.outstanding - 1, ops := s.ops - {p});
      if s'.outstanding == 0 then
        s'.(committing := true, phase := if |s.lh| > 0 then WriteLog(0) else Done)
      else s'.(asleep := {})
    case Woken(p) => s.(asleep := s.asleep - {p})
    case DiskStep => DoDiskStep(sb, s)
    case Finish => s.(committing := false, asleep := {}, phase := Idle)
    case Crash => State(s.disk, map[], [], 0, false, map[], {}, {}, Reboot)
  }

  /** es is a run from s: every event can happen where it does. */
  predicate ValidRun(sb: Super, s: State, es: seq<Event>)
    decreases |es|, 0
  {
    es == [] ||
    var n := |es| - 1;
    ValidRun(sb, s, es[..n]) && Can(sb, Final(sb, s, es[..n]), es[n])
  }

  function Final(sb: Super, s: State, es: seq<Event>): State
    requires ValidRun(sb, s, es)
    decreases |es|, 1
  {
    if es == [] then s
    else
      var n := |es| - 1;
      Do(sb, Final(sb, s, es[..n]), es[n])
  }

  // ----- Invariant -----

  /** No block is listed twice, and only home blocks are. */
  ghost predicate ListOk(sb: Super, d: Disk, lh: Header) {
    |lh| < sb.size && forall i :: 0 <= i < |lh| ==> Find(lh, lh[i]) == i && sb.Home(d, lh[i])
  }

  ghost predicate HeaderOk(sb: Super, d: Disk) {
    Word(At(d, sb.start), 0) <= LOGSIZE && ListOk(sb, d, Entries(At(d, sb.start)))
  }

  /** Exactly the blocks of q from index lo on are pinned in the cache. */
  ghost predicate Pins(c: Disk, q: seq<Uint32>, lo: nat) {
    forall b :: b in c <==> lo <= Find(q, b) < |q|
  }

  ghost predicate PhaseInv(sb: Super, s: State) {
    match s.phase
    case Idle =>
      !s.committing && (s.outstanding == 0 ==> s.lh == []) && Pins(s.cache, s.lh, 0)
    case WriteLog(t) =>
      s.committing && 0 < |s.lh| && t <= |s.lh| && Pins(s.cache, s.lh, 0) &&
      forall i :: 0 <= i < t ==> At(s.disk, sb.Slot(i)) == At(s.cache, s.lh[i])
    case Install(t) =>
      t <= |s.lh| && Pins(s.cache, s.lh, if s.committing then t else |s.lh|) &&
      (forall i :: 0 <= i < t ==> At(s.disk, s.lh[i]) == At(s.disk, sb.Slot(i))) &&
      (s.committing ==> forall i :: t <= i < |s.lh| ==> At(s.cache, s.lh[i]) == At(s.disk, sb.Slot(i)))
    case Done =>
      s.committing && s.lh == [] && s.cache == map[]
    case Reboot =>
      !s.committing && s.lh == [] && s.cache == map[]
  }

  /** The header on disk lists the transaction exactly while it is being installed. */
  ghost predicate OnDisk(sb: Super, s: State) {
    s.phase.Reboot? || Entries(At(s.disk, sb.start)) == if s.phase.Install? then s.lh else []
  }

  ghost predicate Counters(s: State) {
    && s.outstanding == |s.ops| && s.passed <= s.ops.Keys
    && (s.committing || Recovering(s) ==> s.ops == map[])
    && (s.asleep != {} ==> MustWait(s) && !Recovering(s))
  }

  ghost predicate Inv(sb: Super, s: State) {
    && HeaderOk(sb, s.disk) && ListOk(sb, s.disk, s.lh) && OnDisk(sb, s)
    && Counters(s) && PhaseInv(sb, s)
  }

  /** The append makes the header list more blocks than the log on disk has slots for. */
  predicate Overfills(sb: Super, s: State, e: Event) {
    e.Append? && Find(s.lh, e.b) == |s.lh| && |s.lh| >= sb.size - 1
  }

  // ----- The atomic disk that the log refines -----

  /** What the operations in progress see, and what would survive a crash now. */
  datatype Atomic = Atomic(current: Disk, durable: Disk)

  datatype Action = Write(b: nat, v: Block) | Commit | Lose | Stutter

  function Act(a: Atomic, k: Action): Atomic {
    match k
    case Write(b, v) => a.(current := a.current[b := v])
    case Commit => a.(durable := a.current)
    case Lose => a.(current := a.durable)
    case Stutter => a
  }

  /** The contents block b gets when the log now on disk is installed. */
  function Recovered(sb: Super, d: Disk, b: nat): Block {
    var e := Entries(At(d, sb.start));
    var i := Find(e, b);
    if i < |e| then At(d, sb.Slot(i)) else At(d, b)
  }

  function Seen(sb: Super, s: State, b: nat): Block {
    if b in s.cache then s.cache[b] else Recovered(sb, s.disk, b)
  }

  function Abs(sb: Super, s: State): Atomic {
    Atomic(map b | b in s.disk && !sb.InLog(b) :: Seen(sb, s, b),
           map b | b in s.disk && !sb.InLog(b) :: Recovered(sb, s.disk, b))
  }

  /** Only three kinds of step show: a logged write, the write_head that ends WriteLog, a crash. */
  function Label(s: State, e: Event): Action {
    match e
    case Append(p, b, v) => Write(b, v)
    case DiskStep => if s.phase.WriteLog? && s.phase.tail >= |s.lh| then Commit else Stutter
    case Crash => Lose
    case _ => Stutter
  }

  lemma WriteLogStep(sb: Super, s: State)
    requires Inv(sb, s) && s.phase.WriteLog? && s.phase.tail < |s.lh|
    ensures Inv(sb, DoDiskStep(sb, s))
    ensures forall b :: sb.Home(s.disk, b) ==>
              Recovered(sb, DoDiskStep(sb, s).disk, b) == Recovered(sb, s.disk, b)
  {
    hide Entries, HeadBlock;
    var s' := DoDiskStep(sb, s);
    assert At(s'.disk, sb.start) == At(s.disk, sb.start);
    assert forall b :: sb.Home(s.disk, b) ==> sb.Home(s'.disk, b) && At(s'.disk, b) == At(s.disk, b);
  }

  lemma CommitStep(sb: Super, s: State)
    requires Inv(sb, s) && s.phase.WriteLog? && s.phase.tail >= |s.lh|
    ensures Inv(sb, DoDiskStep(sb, s))
    ensures forall b :: sb.Home(s.disk, b) ==>
              Recovered(sb, DoDiskStep(sb, s).disk, b) == Seen(sb, s, b)
  {
    hide Entries, HeadBlock;
    var s' := DoDiskStep(sb, s);
    EntriesOfHeadBlock(At(s.disk, sb.start), s.lh);
    assert forall i :: 0 <= i < |s.lh| ==> At(s'.disk, sb.Slot(i)) == At(s.disk, sb.Slot(i));
    assert forall b :: sb.Home(s.disk, b) ==> sb.Home(s'.disk, b) && At(s'.disk, b) == At(s.disk, b);
  }

  /** Installing one block leaves the log region and every other block as they were. */
  lemma InstallFrame(sb: Super, s: State)
    requires ListOk(sb, s.disk, s.lh) && s.phase.Install? && s.phase.tail < |s.lh|
    ensures var s', x := DoDiskStep(sb, s), s.lh[s.phase.tail];
            && sb.Home(s.disk, x)
            && s'.disk.Keys == s.disk.Keys
            && At(s'.disk, x) == At(s.disk, sb.Slot(s.phase.tail))
            && At(s'.disk, sb.start) == At(s.disk, sb.start)
            && (forall i :: 0 <= i < |s.lh| ==> At(s'.disk, sb.Slot(i)) == At(s.disk, sb.Slot(i)))
            && (forall b: nat :: b != x ==> At(s'.disk, b) == At(s.disk, b))
  {
    hide Entries, HeadBlock;
  }

  lemma InstallRecovered(sb: Super, s: State, b: nat)
    requires Inv(sb, s) && s.phase.Install? && s.phase.tail < |s.lh|
    ensures Recovered(sb, DoDiskStep(sb, s).disk, b) == Recovered(sb, s.disk, b)
  {
    hide Entries, HeadBlock;
    InstallFrame(sb, s);
  }

  lemma InstallList(sb: Super, s: State)
    requires ListOk(sb, s.disk, s.lh) && s.phase.Install? && s.phase.tail < |s.lh|
    ensures ListOk(sb, DoDiskStep(sb, s).disk, s.lh)
  {
    hide Entries, HeadBlock;
    InstallFrame(sb, s);
  }

  lemma InstallPins(c: Disk, q: seq<Uint32>, t: nat)
    requires t < |q| && Pins(c, q, t) && Find(q, q[t]) == t
    ensures Pins(c - {q[t]}, q, t + 1)
  {
  }

  lemma InstallFields(sb: Super, s: State)
    requires s.phase.Install? && s.phase.tail < |s.lh|
    ensures var s', t := DoDiskStep(sb, s), s.phase.tail;
            s' == s.(disk := s'.disk, cache := s.cache - {s.lh[t]}, phase := Install(t + 1))
  {
  }

  lemma InstallPhase(sb: Super, s: State)
    requires ListOk(sb, s.disk, s.lh) && PhaseInv(sb, s) && s.phase.Install? && s.phase.tail < |s.lh|
    ensures PhaseInv(sb, DoDiskStep(sb, s))
  {
    InstallFrame(sb, s);
    InstallFields(sb, s);
    var s', t := DoDiskStep(sb, s), s.phase.tail;
    hide DoDiskStep, At;
    assert forall i :: 0 <= i < |s.lh| && i != t ==> s.lh[i] != s.lh[t];
    if s.committing {
      InstallPins(s.cache, s.lh, t);
      CacheLess(s.cache, s.lh, t);
      hide Pins;
    } else {
      assert s.cache == map[] && s'.cache == map[];
    }
  }

  lemma CacheLess(c: Disk, q: seq<Uint32>, t: nat)
    requires t < |q| && forall i :: 0 <= i < |q| && i != t ==> q[i] != q[t]
    ensures forall i :: 0 <= i < |q| && i != t ==> At(c - {q[t]}, q[i]) == At(c, q[i])
  {
  }

  lemma InstallStep(sb: Super, s: State)
    requires Inv(sb, s) && s.phase.Install? && s.phase.tail < |s.lh|
    ensures Inv(sb, DoDiskStep(sb, s))
  {
    hide Entries, HeadBlock;
    InstallFrame(sb, s);
    InstallList(sb, s);
    InstallPhase(sb, s);
  }

  lemma ClearStep(sb: Super, s: State)
    requires Inv(sb, s) && s.phase.Install? && s.phase.tail >= |s.lh|
    ensures Inv(sb, DoDiskStep(sb, s))
    ensures forall b :: sb.Home(s.disk, b) ==>
              Recovered(sb, DoDiskStep(sb, s).disk, b) == Recovered(sb, s.disk, b)
  {
    hide Entries, HeadBlock;
    var s' := DoDiskStep(sb, s);
    EntriesOfHeadBlock(At(s.disk, sb.start), []);
    assert forall b :: sb.Home(s.disk, b) ==> sb.Home(s'.disk, b) && At(s'.disk, b) == At(s.disk, b);
    assert s.cache == map[];
  }

  lemma DiskStepRefines(sb: Super, s: State, b: nat)
    requires Inv(sb, s) && Can(sb, s, DiskStep)
    ensures var s' := DoDiskStep(sb, s);
            && (sb.Home(s.disk, b) <==> sb.Home(s'.disk, b))
            && (sb.Home(s.disk, b) ==>
                 && Seen(sb, s', b) == Seen(sb, s, b)
                 && Recovered(sb, s'.disk, b) ==
                    if Label(s, DiskStep).Commit? then Seen(sb, s, b) else Recovered(sb, s.disk, b))
  {
    hide Entries, HeadBlock;
    match s.phase
    case WriteLog(t) => if t < |s.lh| { WriteLogStep(sb, s); } else { CommitStep(sb, s); }
    case Install(t) => if t < |s.lh| { InstallRecovered(sb, s, b); InstallFrame(sb, s); } else { ClearStep(sb, s); }
    case Reboot =>
  }

  lemma DiskStepInv(sb: Super, s: State)
    requires Inv(sb, s) && Can(sb, s, DiskStep)
    ensures Inv(sb, DoDiskStep(sb, s))
  {
    match s.phase
    case WriteLog(t) => if t < |s.lh| { WriteLogStep(sb, s); } else { CommitStep(sb, s); }
    case Install(t) => if t < |s.lh| { InstallStep(sb, s); } else { ClearStep(sb, s); }
    case Reboot =>
  }

  lemma AppendInv(sb: Super, s: State, p: nat, b: Uint32, v: Block)
    requires Inv(sb, s) && Can(sb, s, Append(p, b, v)) && !Overfills(sb, s, Append(p, b, v))
    ensures Inv(sb, Do(sb, s, Append(p, b, v)))
  {
    hide Entries, HeadBlock;
    var s' := Do(sb, s, Append(p, b, v));
    assert s'.ops.Keys == s.ops.Keys;
    if s'.lh != s.lh {
      forall c: nat ensures Find(s'.lh, c) == if Find(s.lh, c) < |s.lh| then Find(s.lh, c)
                                      else if c == b then |s.lh| else |s.lh| + 1
      {
        FindAppend(s.lh, b, c);
      }
      assert forall i :: 0 <= i < |s.lh| ==> s'.lh[i] == s.lh[i];
    }
  }

  lemma NoPins(c: Disk)
    requires Pins(c, [], 0)
    ensures c == map[]
  {
  }

  lemma EndInv(sb: Super, s: State, p: nat)
    requires Inv(sb, s) && Can(sb, s, End(p))
    ensures Inv(sb, Do(sb, s, End(p)))
  {
    hide ListOk, HeaderOk, Pins, Entries, HeadBlock;
    var s' := Do(sb, s, End(p));
    OneLess(s.ops, p);
    if s.lh == [] {
      NoPins(s.cache);
    }
  }

  lemma StepInv(sb: Super, s: State, e: Event)
    requires Inv(sb, s) && Can(sb, s, e) && !Overfills(sb, s, e)
    ensures Inv(sb, Do(sb, s, e))
  {
    match e
    case DiskStep => DiskStepInv(sb, s);
    case Append(p, b, v) => AppendInv(sb, s, p, b, v);
    case End(p) => EndInv(sb, s, p);
    case _ =>
  }

  lemma AbsEqual(sb: Super, s: State, s': State, commit: bool)
    requires forall b :: sb.Home(s.disk, b) <==> sb.Home(s'.disk, b)
    requires forall b :: sb.Home(s.disk, b) ==>
               && Seen(sb, s', b) == Seen(sb, s, b)
               && Recovered(sb, s'.disk, b) == if commit then Seen(sb, s, b) else Recovered(sb, s.disk, b)
    ensures Abs(sb, s') == Act(Abs(sb, s), if commit then Commit else Stutter)
  {
    hide Seen, Recovered;
    var a, a' := Abs(sb, s), Abs(sb, s');
    forall b: nat
      ensures (b in a.current <==> sb.Home(s.disk, b)) && (b in a'.current <==> sb.Home(s'.disk, b))
      ensures b in a.current ==> a'.current[b] == a.current[b]
      ensures b in a.durable ==> a'.durable[b] == if commit then a.current[b] else a.durable[b]
    {
    }
    assert a'.current == a.current;
    assert a'.durable == if commit then a.current else a.durable;
  }

  lemma AbsOfAppend(sb: Super, s: State, p: nat, b: Uint32, v: Block)
    requires Can(sb, s, Append(p, b, v))
    ensures Abs(sb, Do(sb, s, Append(p, b, v))) == Act(Abs(sb, s), Write(b, v))
  {
    hide Recovered, Find;
    var s' := Do(sb, s, Append(p, b, v));
    var a, a' := Abs(sb, s), Abs(sb, s');
    assert s'.disk == s.disk && s'.cache == s.cache[b := v] && sb.Home(s.disk, b);
    hide Do;
    assert a'.durable == a.durable;
    assert a'.current == a.current[b as nat := v];
  }

  lemma AbsOfSame(sb: Super, s: State, s': State)
    requires s'.disk == s.disk && s'.cache == s.cache
    ensures Abs(sb, s') == Abs(sb, s)
  {
    hide Recovered;
  }

  lemma AbsOfCrash(sb: Super, s: State, s': State)
    requires s'.disk == s.disk && s'.cache == map[]
    ensures Abs(sb, s') == Act(Abs(sb, s), Lose)
  {
    hide Recovered;
    assert Abs(sb, s').current == Abs(sb, s).durable;
  }

  lemma AbsOfMemoryStep(sb: Super, s: State, e: Event)
    requires Can(sb, s, e) && !e.DiskStep?
    ensures Abs(sb, Do(sb, s, e)) == Act(Abs(sb, s), Label(s, e))
  {
    hide Abs, DoDiskStep, Find;
    if e.Append? {
      AbsOfAppend(sb, s, e.p, e.b, e.v);
    } else if e.Crash? {
      AbsOfCrash(sb, s, Do(sb, s, e));
    } else {
      AbsOfSame(sb, s, Do(sb, s, e));
    }
  }

  lemma DiskStepAbs(sb: Super, s: State)
    requires Inv(sb, s) && Can(sb, s, DiskStep)
    ensures Abs(sb, DoDiskStep(sb, s)) == Act(Abs(sb, s), Label(s, DiskStep))
  {
    hide Inv, DoDiskStep, Seen, Recovered, Abs;
    var s' := DoDiskStep(sb, s);
    var commit := Label(s, DiskStep).Commit?;
    forall b: nat
      ensures sb.Home(s.disk, b) <==> sb.Home(s'.disk, b)
      ensures sb.Home(s.disk, b) ==>
        && Seen(sb, s', b) == Seen(sb, s, b)
        && Recovered(sb, s'.disk, b) == if commit then Seen(sb, s, b) else Recovered(sb, s.disk, b)
    {
      DiskStepRefines(sb, s, b);
    }
    AbsEqual(sb, s, s', commit);
  }

  /** An append that overfills the log breaks it. */
  lemma OverfillBreaks(sb: Super, s: State, e: Event)
    requires Can(sb, s, e) && Overfills(sb, s, e)
    ensures !Inv(sb, Do(sb, s, e))
  {
  }

  /** Every step that does not overfill the log keeps the invariant and is exactly its action on the
      atomic disk. */
  lemma StepRefines(sb: Super, s: State, e: Event)
    requires Inv(sb, s) && Can(sb, s, e) && !Overfills(sb, s, e)
    ensures Inv(sb, Do(sb, s, e))
    ensures Abs(sb, Do(sb, s, e)) == Act(Abs(sb, s), Label(s, e))
  {
    StepInv(sb, s, e);
    if e.DiskStep? {
      DiskStepAbs(sb, s);
    } else {
      AbsOfMemoryStep(sb, s, e);
    }
  }

  // ----- Whole runs -----

  /** The machine is switched on over a disk whose log header is well formed. */
  ghost predicate Boot(sb: Super, s: State) {
    HeaderOk(sb, s.disk) && s == State(s.disk, map[], [], 0, false, map[], {}, {}, Reboot)
  }

  /** A crash leaves a machine that is switched on over the disk as it was. */
  lemma CrashBoots(sb: Super, s: State)
    requires Inv(sb, s)
    ensures Boot(sb, Do(sb, s, Crash)) && Do(sb, s, Crash).disk == s.disk
  {
  }

  function Acts(sb: Super, s: State, es: seq<Event>, a: Atomic): Atomic
    requires ValidRun(sb, s, es)
    decreases |es|
  {
    if es == [] then a
    else
      var n := |es| - 1;
      Act(Acts(sb, s, es[..n], a), Label(Final(sb, s, es[..n]), es[n]))
  }

  /** No step of the run overfills the log. */
  predicate Fits(sb: Super, s: State, es: seq<Event>)
    requires ValidRun(sb, s, es)
    decreases |es|
  {
    es == [] ||
    var n := |es| - 1;
    Fits(sb, s, es[..n]) && !Overfills(sb, Final(sb, s, es[..n]), es[n])
  }

  /** Any interleaving of operations, commits, crashes and recoveries that fits the log is a run of the
      atomic disk. */
  lemma {:induction false} RunRefines(sb: Super, s: State, es: seq<Event>)
    requires Inv(sb, s) && ValidRun(sb, s, es) && Fits(sb, s, es)
    ensures Inv(sb, Final(sb, s, es))
    ensures Abs(sb, Final(sb, s, es)) == Acts(sb, s, es, Abs(sb, s))
    decreases |es|
  {
    if es != [] {
      var n := |es| - 1;
      RunRefines(sb, s, es[..n]);
      StepRefines(sb, Final(sb, s, es[..n]), es[n]);
    }
  }

  lemma {:induction false} RunAppend(sb: Super, s: State, es: seq<Event>, e: Event)
    requires ValidRun(sb, s, es) && Can(sb, Final(sb, s, es), e)
    ensures ValidRun(sb, s, es + [e]) && Final(sb, s, es + [e]) == Do(sb, Final(sb, s, es), e)
  {
    assert (es + [e])[..|es|] == es;
  }

  /** A crash and whatever follows it before the next operation: recovery steps and more crashes. */
  predicate OnlyRecovery(es: seq<Event>) {
    es != [] && es[0].Crash? && forall i :: 0 <= i < |es| ==> es[i].Crash? || es[i].DiskStep?
  }

  lemma RecoveryStep(sb: Super, s: State, e: Event)
    requires Inv(sb, s) && Can(sb, s, e) && (e.Crash? || e.DiskStep?)
    requires !s.committing && s.cache == map[]
    ensures var s' := Do(sb, s, e);
            Inv(sb, s') && !s'.committing && s'.cache == map[] && Abs(sb, s').durable == Abs(sb, s).durable
  {
    hide Abs, Entries, HeadBlock, HeaderOk, ListOk, Pins, Counters, OnDisk;
    StepRefines(sb, s, e);
  }

  lemma {:induction false} RecoveryKeepsDurable(sb: Super, s: State, es: seq<Event>)
    requires Inv(sb, s) && ValidRun(sb, s, es) && OnlyRecovery(es)
    ensures var f := Final(sb, s, es);
            Inv(sb, f) && !f.committing && f.cache == map[] && Abs(sb, f).durable == Abs(sb, s).durable
    decreases |es|
  {
    hide Abs, Inv, DoDiskStep;
    var n := |es| - 1;
    if n == 0 {
      StepRefines(sb, s, es[0]);
    } else {
      RecoveryKeepsDurable(sb, s, es[..n]);
      RecoveryStep(sb, Final(sb, s, es[..n]), es[n]);
    }
  }

  /** A transaction is on disk from its commit point (the write_head that ends WriteLog) on. */
  predicate Committed(s: State) {
    !s.phase.Idle? && !s.phase.WriteLog?
  }

  lemma DurableAt(sb: Super, s: State, b: nat)
    requires sb.Home(s.disk, b)
    ensures b in Abs(sb, s).durable && Abs(sb, s).durable[b] == Recovered(sb, s.disk, b)
  {
    hide Recovered;
  }

  /** What recovery would leave in a home block. */
  lemma RecoveredAt(sb: Super, s: State, b: nat)
    requires Inv(sb, s) && sb.Home(s.disk, b)
    ensures Committed(s) ==> Recovered(sb, s.disk, b) == Seen(sb, s, b)
    ensures !Committed(s) ==> Recovered(sb, s.disk, b) == At(s.disk, b)
  {
    hide Entries, HeadBlock;
    if s.phase.Install? && b in s.cache {
      assert Find(s.lh, b) < |s.lh|;
    }
  }

  /** Crash at any point, recover with any number of further crashes: the first recovery to
      finish leaves every home block as the disk held it before the transaction, if the commit
      point was not reached, and otherwise as the transaction left it. Never a mixture. */
  lemma CrashAtomicity(sb: Super, s: State, es: seq<Event>, b: nat)
    requires Inv(sb, s) && ValidRun(sb, s, es) && OnlyRecovery(es)
    requires Final(sb, s, es).phase.Idle? && sb.Home(s.disk, b)
    ensures At(Final(sb, s, es).disk, b) == if Committed(s) then Seen(sb, s, b) else At(s.disk, b)
  {
    RecoveryKeepsDurable(sb, s, es);
    var f := Final(sb, s, es);
    DurableAt(sb, s, b);
    assert sb.Home(f.disk, b) by { hide Inv, Recovered; assert b in Abs(sb, f).durable; }
    RecoveredAt(sb, s, b);
    RecoveredAt(sb, f, b);
    hide Inv, Recovered, Abs;
    DurableAt(sb, f, b);
  }

  /** Home blocks of the disk change only while a committed transaction is being installed. */
  lemma HomeWrittenOnlyAfterCommit(sb: Super, s: State, e: Event, b: nat)
    requires Inv(sb, s) && Can(sb, s, e) && sb.Home(s.disk, b)
    ensures At(Do(sb, s, e).disk, b) != At(s.disk, b) ==>
              s.phase.Install? && e.DiskStep? && At(Do(sb, s, e).disk, b) == Recovered(sb, s.disk, b)
  {
    hide Entries, HeadBlock, HeaderOk, Pins, Counters, Recovered, DoDiskStep;
    if e.DiskStep? {
      if s.phase.Install? && s.phase.tail < |s.lh| {
        HomeInstalled(sb, s, b);
      } else {
        HomeKept(sb, s, b);
      }
    } else {
      assert Do(sb, s, e).disk == s.disk;
    }
  }

  lemma HomeInstalled(sb: Super, s: State, b: nat)
    requires Inv(sb, s) && s.phase.Install? && s.phase.tail < |s.lh|
    ensures At(DoDiskStep(sb, s).disk, b) != At(s.disk, b) ==> At(DoDiskStep(sb, s).disk, b) == Recovered(sb, s.disk, b)
  {
    InstallFrame(sb, s);
    hide Entries, HeadBlock, HeaderOk, Pins, Counters, DoDiskStep;
    if b == s.lh[s.phase.tail] {
      assert Find(s.lh, b) == s.phase.tail;
    }
  }

  lemma HomeKept(sb: Super, s: State, b: nat)
    requires Inv(sb, s) && sb.Home(s.disk, b) && !(s.phase.Install? && s.phase.tail < |s.lh|)
    ensures At(DoDiskStep(sb, s).disk, b) == At(s.disk, b)
  {
    hide Entries, HeadBlock, HeaderOk, Pins, Counters;
  }

  /** Recovery always finishes: n installs between reading and clearing the header. */
  lemma {:induction false} RecoveryFinishes(sb: Super, s: State, k: nat)
    requires Inv(sb, s) && s.phase.Reboot? && k <= |Entries(At(s.disk, sb.start))| + 2
    ensures var es := seq(k, _ => DiskStep);
            && ValidRun(sb, s, es)
            && var f := Final(sb, s, es); var n := |Entries(At(s.disk, sb.start))|;
            && Inv(sb, f)
            && !f.committing
            && (1 <= k ==> |f.lh| == if k < n + 2 then n else 0)
            && f.phase == (if k == 0 then Reboot else if k < n + 2 then Install(k - 1) else Idle)
  {
    hide Entries, HeadBlock, HeaderOk, ListOk, Pins, Counters;
    var es := seq(k, _ => DiskStep);
    if k > 0 {
      assert es[..k - 1] == seq(k - 1, _ => DiskStep);
      RecoveryFinishes(sb, s, k - 1);
      StepInv(sb, Final(sb, s, es[..k - 1]), DiskStep);
    }
  }

  // ----- A whole transaction -----

  /** Operations before the commit: no block is written to disk, and the machine does not fail. */
  predicate InMemory(es: seq<Event>) {
    forall i :: 0 <= i < |es| ==> !es[i].DiskStep? && !es[i].Crash?
  }

  /** The commit, as far as it gets: nothing more is logged. */
  predicate NoWrites(es: seq<Event>) {
    forall i :: 0 <= i < |es| ==> !es[i].Append? && !es[i].Crash?
  }

  /** The disk with every logged write of es in its place, later ones over earlier ones. */
  function Written(d: Disk, es: seq<Event>): Disk {
    if es == [] then d
    else
      var n := |es| - 1;
      var w := Written(d, es[..n]);
      if es[n].Append? then w[es[n].b := es[n].v] else w
  }

  lemma {:induction false} OperationsWrite(sb: Super, s: State, es: seq<Event>)
    requires Inv(sb, s) && ValidRun(sb, s, es) && Fits(sb, s, es) && InMemory(es)
    ensures var f := Final(sb, s, es);
            && Inv(sb, f) && Abs(sb, f).durable == Abs(sb, s).durable
            && Abs(sb, f).current == Written(Abs(sb, s).current, es)
    decreases |es|
  {
    hide Abs, Inv, Do;
    if es != [] {
      var n := |es| - 1;
      OperationsWrite(sb, s, es[..n]);
      StepRefines(sb, Final(sb, s, es[..n]), es[n]);
    }
  }

  lemma {:induction false} CommitShows(sb: Super, s: State, es: seq<Event>)
    requires Inv(sb, s) && ValidRun(sb, s, es) && NoWrites(es)
    ensures var f := Final(sb, s, es);
            && Inv(sb, f) && Abs(sb, f).current == Abs(sb, s).current
            && (Abs(sb, f).durable == Abs(sb, s).durable || Abs(sb, f).durable == Abs(sb, s).current)
    decreases |es|
  {
    hide Abs, Inv, Do;
    if es != [] {
      var n := |es| - 1;
      CommitShows(sb, s, es[..n]);
      StepRefines(sb, Final(sb, s, es[..n]), es[n]);
    }
  }

  /** Between transactions the home blocks on disk are all there is. */
  lemma IdleAbs(sb: Super, s: State)
    requires Inv(sb, s) && s.phase.Idle? && s.lh == []
    ensures Abs(sb, s).current == Abs(sb, s).durable
    ensures forall b :: b in Abs(sb, s).durable <==> sb.Home(s.disk, b)
    ensures forall b :: sb.Home(s.disk, b) ==> Abs(sb, s).durable[b] == At(s.disk, b)
  {
    hide Entries, HeaderOk;
    NoPins(s.cache);
  }

  lemma {:induction false} WrittenAt(d: Disk, c: Disk, es: seq<Event>, b: nat)
    requires At(d, b) == At(c, b)
    ensures At(Written(d, es), b) == At(Written(c, es), b)
    decreases |es|
  {
    if es != [] {
      WrittenAt(d, c, es[..|es| - 1], b);
    }
  }

  /** Any number of operations in one transaction that fits the log are atomic: whatever they logged, and wherever the
      machine fails in or after the commit and in recovery, the first recovery to finish leaves all the
      home blocks as before the transaction, or all of them with every logged write in place. */
  lemma TransactionIsAtomic(sb: Super, s: State, ops: seq<Event>, commit: seq<Event>, es: seq<Event>)
    requires Inv(sb, s) && s.phase.Idle? && s.outstanding == 0
    requires ValidRun(sb, s, ops) && Fits(sb, s, ops) && InMemory(ops)
    requires ValidRun(sb, Final(sb, s, ops), commit) && NoWrites(commit)
    requires ValidRun(sb, Final(sb, Final(sb, s, ops), commit), es) && OnlyRecovery(es)
    requires Final(sb, Final(sb, Final(sb, s, ops), commit), es).phase.Idle?
    ensures var d := Final(sb, Final(sb, Final(sb, s, ops), commit), es).disk;
            || (forall b :: sb.Home(s.disk, b) ==> At(d, b) == At(s.disk, b))
            || (forall b :: sb.Home(s.disk, b) ==> At(d, b) == At(Written(s.disk, ops), b))
  {
    var s1 := Final(sb, s, ops);
    var s2 := Final(sb, s1, commit);
    var f := Final(sb, s2, es);
    OperationsWrite(sb, s, ops);
    CommitShows(sb, s1, commit);
    RecoveryKeepsDurable(sb, s2, es);
    RecoveredIsEmpty(sb, f);
    IdleAbs(sb, s);
    IdleAbs(sb, f);
    hide Inv, Abs, Final;
    forall b: nat | sb.Home(s.disk, b)
      ensures At(Written(s.disk, ops), b) == At(Written(Abs(sb, s).current, ops), b)
    {
      WrittenAt(s.disk, Abs(sb, s).current, ops, b);
    }
    assert Abs(sb, f).durable == Abs(sb, s).durable || Abs(sb, f).durable == Written(Abs(sb, s).current, ops);
  }

  lemma RecoveredIsEmpty(sb: Super, s: State)
    requires Inv(sb, s) && s.phase.Idle? && s.cache == map[]
    ensures s.lh == []
  {
    hide Entries, HeaderOk, Pins;
    FirstIsPinned(s.cache, s.lh);
  }

  lemma FirstIsPinned(c: Disk, q: seq<Uint32>)
    requires Pins(c, q, 0)
    ensures q != [] ==> q[0] as nat in c
  {
  }

  // ----- Group commit -----

  /** What holds after every run, whatever it does to the disk: the counters, and which phases there are. */
  ghost predicate Control(s: State) {
    && Counters(s)
    && (s.phase.Idle? || s.phase.Reboot? ==> !s.committing)
    && (s.phase.WriteLog? || s.phase.Done? ==> s.committing)
    && (s.phase.Done? || (s.phase.Idle? && s.outstanding == 0) ==> s.lh == [])
  }

  lemma DiskStepControl(sb: Super, s: State)
    requires Control(s) && Can(sb, s, DiskStep)
    ensures Control(DoDiskStep(sb, s)) && DoDiskStep(sb, s).passed == s.passed && DoDiskStep(sb, s).ops == s.ops
  {
    hide Entries, HeadBlock, At;
  }

  lemma EndControl(sb: Super, s: State, p: nat)
    requires Control(s) && Can(sb, s, End(p))
    ensures Control(Do(sb, s, End(p)))
  {
    OneLess(s.ops, p);
    hide Find, DoDiskStep;
  }

  lemma OneLess(ops: map<nat, nat>, p: nat)
    requires p in ops
    ensures (ops - {p}).Keys == ops.Keys - {p} && |ops - {p}| == |ops| - 1
  {
    assert ops.Keys == (ops - {p}).Keys + {p};
  }

  lemma AppendControl(sb: Super, s: State, p: nat, b: Uint32, v: Block)
    requires Control(s) && Can(sb, s, Append(p, b, v))
    ensures Control(Do(sb, s, Append(p, b, v)))
  {
    hide Find;
    var s' := Do(sb, s, Append(p, b, v));
    assert s'.ops.Keys == s.ops.Keys && |s.ops| > 0;
  }

  lemma ControlStep(sb: Super, s: State, e: Event)
    requires Control(s) && Can(sb, s, e)
    ensures Control(Do(sb, s, e))
  {
    match e
    case DiskStep => DiskStepControl(sb, s);
    case End(p) => EndControl(sb, s, p);
    case Append(p, b, v) => AppendControl(sb, s, p, b, v);
    case _ => hide DoDiskStep;
  }

  lemma {:induction false} ControlHolds(sb: Super, s: State, es: seq<Event>)
    requires Boot(sb, s) && ValidRun(sb, s, es)
    ensures Control(Final(sb, s, es))
    decreases |es|
  {
    hide Control, Do;
    if es == [] {
      BootControl(sb, s);
    } else {
      var n := |es| - 1;
      ControlHolds(sb, s, es[..n]);
      ControlStep(sb, Final(sb, s, es[..n]), es[n]);
    }
  }

  lemma BootControl(sb: Super, s: State)
    requires Boot(sb, s)
    ensures Control(s)
  {
  }

  /** While a commit runs no operation is open: nothing is logged, no data changes under it,
      and the panic of end_op cannot happen. */
  lemma CommitIsExclusive(sb: Super, s: State, e: Event)
    requires Control(s) && Enabled(sb, s, e)
    ensures s.committing ==> s.outstanding == 0 && !e.LogTest? && !e.Append? && !e.End?
    ensures e.End? ==> !Panics(sb, s, e)
    ensures s.committing && (e.Begin? || e.Woken?) ==>
              Do(sb, s, e).lh == s.lh && Do(sb, s, e).cache == s.cache
  {
    if e.End? {
      assert e.p in s.ops && |s.ops| > 0;
    }
  }

  /** No wakeup is lost: a process sleeps in begin_op only while it must, and then some
      operation or commit is still going on whose end will wake it. */
  lemma SleeperHasWaker(sb: Super, s: State)
    requires Control(s) && s.asleep != {}
    ensures MustWait(s) && (s.committing || s.ops != map[])
  {
  }

  /** The test of log_write panics exactly when the header holds min(LOGSIZE, size - 1) blocks or
      more, whatever block it is for. */
  lemma LogTestPanicsIff(sb: Super, s: State, p: nat)
    requires Control(s) && Enabled(sb, s, LogTest(p))
    ensures Panics(sb, s, LogTest(p)) <==> |s.lh| >= if LOGSIZE < sb.size then LOGSIZE else sb.size - 1
  {
    assert p in s.ops && |s.ops| > 0;
  }

  // ----- Reservation of log space -----

  /** What the open operations may still log, at MAXOPBLOCKS fresh blocks each. */
  ghost function Remaining(ops: map<nat, nat>): int {
    if ops == map[] then 0
    else
      var p :| p in ops;
      MAXOPBLOCKS - ops[p] + Remaining(ops - {p})
  }

  lemma {:induction false} RemainingOf(ops: map<nat, nat>, q: nat)
    requires q in ops
    ensures Remaining(ops) == MAXOPBLOCKS - ops[q] + Remaining(ops - {q})
    decreases |ops|
  {
    var p :| p in ops && Remaining(ops) == MAXOPBLOCKS - ops[p] + Remaining(ops - {p});
    if p != q {
      RemainingOf(ops - {p}, q);
      RemainingOf(ops - {q}, p);
      assert ops - {p} - {q} == ops - {q} - {p};
    }
  }

  lemma {:induction false} RemainingBounds(ops: map<nat, nat>)
    requires Modest(ops)
    ensures 0 <= Remaining(ops) <= MAXOPBLOCKS * |ops|
    decreases |ops|
  {
    if ops != map[] {
      var p :| p in ops;
      RemainingOf(ops, p);
      assert |ops - {p}| == |ops| - 1 by {
        assert ops.Keys == (ops - {p}).Keys + {p};
      }
      RemainingBounds(ops - {p});
    }
  }

  /** No open operation has logged more than MAXOPBLOCKS fresh blocks. */
  predicate Modest(ops: map<nat, nat>) {
    forall p :: p in ops ==> ops[p] <= MAXOPBLOCKS
  }

  ghost predicate Reserved(s: State) {
    |s.lh| + Remaining(s.ops) <= LOGSIZE
  }

  /** begin_op's test keeps log space for all that the open operations may still write. */
  lemma ReservationStep(sb: Super, s: State, e: Event)
    requires Control(s) && Can(sb, s, e) && Reserved(s)
    requires Modest(s.ops) && Modest(Do(sb, s, e).ops)
    ensures Reserved(Do(sb, s, e))
  {
    hide Entries, HeadBlock;
    var s' := Do(sb, s, e);
    match e
    case Begin(p) =>
      if !MustWait(s) {
        RemainingOf(s'.ops, p);
        assert s'.ops - {p} == s.ops;
        RemainingBounds(s.ops);
      }
    case Append(p, b, v) =>
      if s'.ops != s.ops {
        RemainingOf(s.ops, p);
        RemainingOf(s'.ops, p);
        assert s'.ops - {p} == s.ops - {p};
      }
    case End(p) =>
      RemainingOf(s.ops, p);
    case DiskStep =>
      assert s'.ops == s.ops;
    case _ =>
  }

  /** begin_op admits exactly when there is room for MAXOPBLOCKS more blocks of each open operation and of
      the new one. */
  lemma AdmitsIff(sb: Super, s: State, p: nat)
    requires Control(s) && Enabled(sb, s, Begin(p))
    ensures Can(sb, s, Begin(p))
    ensures p in Do(sb, s, Begin(p)).ops <==> !s.committing && |s.lh| + (|s.ops| + 1) * MAXOPBLOCKS <= LOGSIZE
  {
  }

  lemma {:induction false} RemainingFresh(ops: map<nat, nat>)
    requires forall p :: p in ops ==> ops[p] == 0
    ensures Remaining(ops) == MAXOPBLOCKS * |ops|
    decreases |ops|
  {
    if ops != map[] {
      var p :| p in ops;
      RemainingOf(ops, p);
      OneLess(ops, p);
      RemainingFresh(ops - {p});
    }
  }

  /** As long as the open operations have logged nothing, begin_op refuses exactly whom the reservation has
      no room for. */
  lemma RefusesOnlyWhenFull(sb: Super, s: State, p: nat)
    requires Control(s) && Enabled(sb, s, Begin(p)) && !s.committing && Reserved(s)
    requires forall q :: q in s.ops ==> s.ops[q] == 0
    ensures p in Do(sb, s, Begin(p)).ops <==> Reserved(s.(ops := s.ops[p := 0]))
  {
    var ops' := s.ops[p := 0];
    assert ops'.Keys == s.ops.Keys + {p};
    assert |ops'| == |s.ops| + 1;
    RemainingFresh(ops');
  }

  function Fresh(n: nat): (ops: map<nat, nat>)
    ensures |ops| == n && forall p: nat :: (p in ops <==> p < n) && (p in ops ==> ops[p] == 0)
  {
    if n == 0 then map[]
    else
      var m := Fresh(n - 1);
      assert m[n - 1 := 0].Keys == m.Keys + {n - 1};
      m[n - 1 := 0]
  }

  /** A state with these numbers in which process p might begin. */
  ghost predicate Looks(s: State, n: nat, outstanding: nat, p: nat) {
    && Control(s) && Reserved(s) && Modest(s.ops) && s.phase.Idle? && p !in s.ops
    && |s.lh| == n && s.outstanding == outstanding
  }

  ghost predicate RoomFor(s: State, p: nat) {
    Reserved(s.(ops := s.ops[p := 0]))
  }

  /** The test is the weakest that looks at n and outstanding only and keeps the reservation: whenever it
      refuses, some state with these two numbers has no room for one more operation. */
  lemma TestIsWeakest(n: nat, outstanding: nat)
    requires n + outstanding * MAXOPBLOCKS <= LOGSIZE && (outstanding == 0 ==> n == 0)
    ensures n + (outstanding + 1) * MAXOPBLOCKS <= LOGSIZE <==>
            forall s, p :: Looks(s, n, outstanding, p) ==> RoomFor(s, p)
  {
    if n + (outstanding + 1) * MAXOPBLOCKS <= LOGSIZE {
      forall s, p | Looks(s, n, outstanding, p)
        ensures RoomFor(s, p)
      {
        RemainingOf(s.ops[p := 0], p);
        assert s.ops[p := 0] - {p} == s.ops;
        RemainingBounds(s.ops);
      }
    } else {
      var ops, lh := Fresh(outstanding), Zeros(n);
      var s := State(map[], map[], lh, outstanding, false, ops, {}, {}, Idle);
      RemainingFresh(ops);
      RemainingFresh(ops[outstanding := 0]);
      assert ops[outstanding := 0].Keys == ops.Keys + {outstanding};
      assert Looks(s, n, outstanding, outstanding) && !RoomFor(s, outstanding);
    }
  }

  function Zeros(n: nat): (lh: Header)
    requires n <= LOGSIZE
    ensures |lh| == n
  {
    seq<Uint32>(n, _ => 0)
  }

  /** A run from boot in which every operation stays within its reservation. */
  predicate ModestRun(sb: Super, s: State, es: seq<Event>)
    requires ValidRun(sb, s, es)
    decreases |es|
  {
    Modest(Final(sb, s, es).ops) && (es == [] || ModestRun(sb, s, es[..|es| - 1]))
  }

  lemma {:induction false} ReservationHolds(sb: Super, s: State, es: seq<Event>)
    requires Boot(sb, s) && ValidRun(sb, s, es) && ModestRun(sb, s, es)
    ensures Control(Final(sb, s, es)) && Reserved(Final(sb, s, es))
    decreases |es|
  {
    hide Control, Do, Modest;
    ControlHolds(sb, s, es);
    if es == [] {
      NothingReserved(s);
    } else {
      var n := |es| - 1;
      ReservationHolds(sb, s, es[..n]);
      ModestAtEnd(sb, s, es[..n]);
      ReservationStep(sb, Final(sb, s, es[..n]), es[n]);
    }
  }

  lemma NothingReserved(s: State)
    requires s.ops == map[] && s.lh == []
    ensures Reserved(s)
  {
  }

  lemma ModestAtEnd(sb: Super, s: State, es: seq<Event>)
    requires ValidRun(sb, s, es) && ModestRun(sb, s, es)
    ensures Modest(Final(sb, s, es).ops)
  {
  }

  /** An operation that has logged k blocks leaves at most LOGSIZE - (MAXOPBLOCKS - k) in the header. */
  lemma ReservedBound(s: State, p: nat)
    requires Reserved(s) && Modest(s.ops) && p in s.ops
    ensures |s.lh| <= LOGSIZE - MAXOPBLOCKS + s.ops[p]
  {
    RemainingOf(s.ops, p);
    RemainingBounds(s.ops - {p});
  }

  /** An operation within its reservation never writes past the end of the header array, even when
      others are past the test too. */
  lemma ArrayHolds(s: State, p: nat, b: nat)
    requires Reserved(s) && Modest(s.ops) && p in s.ops && (Find(s.lh, b) == |s.lh| ==> s.ops[p] < MAXOPBLOCKS)
    ensures ArrayRoom(s, b)
  {
    ReservedBound(s, p);
  }

  // ----- The unlocked test -----

  /** In every run of operations within their reservations the log refines the atomic disk. */
  ghost predicate RefinesAlways(sb: Super) {
    forall s, es :: Boot(sb, s) && ValidRun(sb, s, es) && ModestRun(sb, s, es) ==>
      Abs(sb, Final(sb, s, es)) == Acts(sb, s, es, Abs(sb, s))
  }

  /** A log with more than LOGSIZE blocks is never overfilled, and one with no slot never tested with
      success. */
  lemma {:induction false} LargeLogFits(sb: Super, s: State, es: seq<Event>)
    requires Boot(sb, s) && ValidRun(sb, s, es) && (sb.size == 1 || LOGSIZE < sb.size)
    ensures Fits(sb, s, es) && (sb.size == 1 ==> Final(sb, s, es).passed == {})
    decreases |es|
  {
    if es != [] {
      var n := |es| - 1;
      LargeLogFits(sb, s, es[..n]);
      ControlHolds(sb, s, es[..n]);
      hide Fits, Control;
      LargeLogStep(sb, Final(sb, s, es[..n]), es[n]);
    }
  }

  lemma LargeLogStep(sb: Super, s: State, e: Event)
    requires Control(s) && Can(sb, s, e) && (sb.size == 1 || LOGSIZE < sb.size) && (sb.size == 1 ==> s.passed == {})
    ensures !Overfills(sb, s, e) && (sb.size == 1 ==> Do(sb, s, e).passed == {})
  {
    hide DoDiskStep;
    if e.DiskStep? {
      DiskStepControl(sb, s);
    }
  }

  /** Each call of log_write is over before the next one begins. */
  predicate SerialRun(sb: Super, s: State, es: seq<Event>)
    requires ValidRun(sb, s, es)
    decreases |es|
  {
    es == [] ||
    var n := |es| - 1;
    SerialRun(sb, s, es[..n]) && (es[n].LogTest? ==> Final(sb, s, es[..n]).passed == {})
  }

  /** Then no log is overfilled, however small. */
  lemma {:induction false} SerialRunFits(sb: Super, s: State, es: seq<Event>)
    requires Boot(sb, s) && ValidRun(sb, s, es) && SerialRun(sb, s, es)
    ensures Fits(sb, s, es)
    ensures var f := Final(sb, s, es); f.passed == {} || (Room(sb, f) && exists p :: f.passed == {p})
    decreases |es|
  {
    if es != [] {
      var n := |es| - 1;
      SerialRunFits(sb, s, es[..n]);
      ControlHolds(sb, s, es[..n]);
      hide Control, Room;
      SerialStep(sb, Final(sb, s, es[..n]), es[n]);
    }
  }

  lemma SerialStep(sb: Super, s: State, e: Event)
    requires Control(s) && Can(sb, s, e) && (e.LogTest? ==> s.passed == {})
    requires s.passed == {} || (Room(sb, s) && exists p :: s.passed == {p})
    ensures !Overfills(sb, s, e)
    ensures var f := Do(sb, s, e); f.passed == {} || (Room(sb, f) && exists p :: f.passed == {p})
  {
    hide DoDiskStep;
    var f := Do(sb, s, e);
    if e.LogTest? {
      assert f.passed == {e.p};
    } else if e.Append? {
      assert f.passed == {};
    } else if e.DiskStep? {
      assert s.ops.Keys == {};
      DiskStepControl(sb, s);
    }
  }

  // ----- Runs that fill the log: three operations, the first of which logs k of the blocks -----

  function HomeBlock(sb: Super, i: nat): nat {
    sb.start + sb.size + i
  }

  function Blank(n: nat): (d: Disk)
    ensures forall b: nat :: b in d <==> b < n
  {
    if n == 0 then map[] else Blank(n - 1)[n - 1 := ZeroBlock()]
  }

  function BlankDisk(sb: Super): Disk {
    Blank(sb.start + sb.size + LOGSIZE)
  }

  function BlankBoot(sb: Super): State {
    State(BlankDisk(sb), map[], [], 0, false, map[], {}, {}, Reboot)
  }

  lemma BlankIsZero(n: nat, b: nat)
    ensures At(Blank(n), b) == ZeroBlock()
  {
  }

  lemma BlankBoots(sb: Super)
    requires sb.size >= 1
    ensures Boot(sb, BlankBoot(sb)) && Entries(At(BlankDisk(sb), sb.start)) == []
  {
    BlankIsZero(sb.start + sb.size + LOGSIZE, sb.start);
    WordOfZero(0);
  }

  lemma Extend(sb: Super, s: State, es: seq<Event>, e: Event)
    requires ValidRun(sb, s, es) && ModestRun(sb, s, es) && Can(sb, Final(sb, s, es), e)
    requires Modest(Do(sb, Final(sb, s, es), e).ops)
    ensures ValidRun(sb, s, es + [e]) && ModestRun(sb, s, es + [e])
    ensures Final(sb, s, es + [e]) == Do(sb, Final(sb, s, es), e)
  {
    hide DoDiskStep, At, Can, Do, Modest;
    var es' := es + [e];
    assert es'[..|es'| - 1] == es;
  }

  /** The process that logs the fresh block j, and how many of the first j process p logs. */
  function Who(k: nat, j: nat): nat {
    if j < k then 0 else if j < k + MAXOPBLOCKS then 1 else 2
  }

  function Share(k: nat, j: nat, p: nat): nat {
    if p == 0 then (if j < k then j else k)
    else if p == 1 then (if j < k then 0 else if j < k + MAXOPBLOCKS then j - k else MAXOPBLOCKS)
    else if j < k + MAXOPBLOCKS then 0 else j - k - MAXOPBLOCKS
  }

  function Shares(k: nat, j: nat): map<nat, nat> {
    map[0 := Share(k, j, 0), 1 := Share(k, j, 1), 2 := Share(k, j, 2)]
  }

  /** Nothing has been committed since the machine was switched on. */
  ghost predicate Clean(sb: Super, d: Disk) {
    && d.Keys == BlankDisk(sb).Keys && Entries(At(d, sb.start)) == []
    && forall b: nat :: b >= sb.start + sb.size ==> At(d, b) == ZeroBlock()
  }

  /** Operations ops are open and have logged the first j home blocks. */
  ghost predicate Logging(sb: Super, s: State, ops: map<nat, nat>, j: nat, passed: set<nat>) {
    && s.phase == Idle && s.outstanding == |ops| > 0 && !s.committing && s.asleep == {}
    && s.ops == ops && s.passed == passed && |s.lh| == j
    && (forall i :: 0 <= i < j ==> s.lh[i] == HomeBlock(sb, i))
    && Clean(sb, s.disk)
  }

  ghost predicate Filled(sb: Super, s: State, k: nat, j: nat) {
    Logging(sb, s, Shares(k, j), j, {})
  }

  lemma Switched(sb: Super) returns (es: seq<Event>)
    requires sb.size >= 1
    ensures var s := BlankBoot(sb);
            && ValidRun(sb, s, es) && ModestRun(sb, s, es)
            && var f := Final(sb, s, es);
               f == State(f.disk, map[], [], 0, false, map[], {}, {}, Idle) && Clean(sb, f.disk)
  {
    hide Entries, HeadBlock;
    var s := BlankBoot(sb);
    BlankBoots(sb);
    Extend(sb, s, [], DiskStep);
    var es1: seq<Event> := [] + [DiskStep];
    var s1 := Final(sb, s, es1);
    assert s1.phase == Install(0) && s1.lh == [] && s1.disk == BlankDisk(sb);
    Extend(sb, s, es1, DiskStep);
    es := es1 + [DiskStep];
    EntriesOfHeadBlock(At(BlankDisk(sb), sb.start), []);
    forall b: nat | b >= sb.start + sb.size
      ensures At(Final(sb, s, es).disk, b) == ZeroBlock()
    {
      BlankIsZero(sb.start + sb.size + LOGSIZE, b);
    }
  }

  lemma ThreeOpen(sb: Super, s: State, k: nat)
    requires s == State(s.disk, map[], [], 0, false, map[], {}, {}, Idle) && Clean(sb, s.disk) && sb.size >= 1
    ensures Filled(sb, s.(outstanding := 3, ops := map[0 := 0, 1 := 0, 2 := 0]), k, 0)
  {
    assert Shares(k, 0) == map[0 := 0, 1 := 0, 2 := 0];
    assert |Shares(k, 0)| == 3;
  }

  lemma OpenThree(sb: Super, k: nat) returns (es: seq<Event>)
    requires sb.size >= 1
    ensures var s := BlankBoot(sb);
            ValidRun(sb, s, es) && ModestRun(sb, s, es) && Filled(sb, Final(sb, s, es), k, 0)
  {
    var s := BlankBoot(sb);
    var es0 := Switched(sb);
    BeginThree(sb, Final(sb, s, es0));
    ThreeOpen(sb, Final(sb, s, es0), k);
    hide Clean, BlankBoot, Can, Do, Modest, Final, ValidRun, ModestRun, Filled;
    Extend(sb, s, es0, Begin(0));
    Extend(sb, s, es0 + [Begin(0)], Begin(1));
    Extend(sb, s, es0 + [Begin(0)] + [Begin(1)], Begin(2));
    es := es0 + [Begin(0)] + [Begin(1)] + [Begin(2)];
  }

  lemma BeginThree(sb: Super, s: State)
    requires s == State(s.disk, map[], [], 0, false, map[], {}, {}, Idle)
    ensures Can(sb, s, Begin(0)) && Modest(Do(sb, s, Begin(0)).ops)
    ensures var s1 := Do(sb, s, Begin(0));
            && Can(sb, s1, Begin(1)) && Modest(Do(sb, s1, Begin(1)).ops)
            && var s2 := Do(sb, s1, Begin(1));
               && Can(sb, s2, Begin(2)) && Modest(Do(sb, s2, Begin(2)).ops)
               && Do(sb, s2, Begin(2)) == s.(outstanding := 3, ops := map[0 := 0, 1 := 0, 2 := 0])
  {
  }

  lemma FindAbsent(q: seq<Uint32>, b: nat)
    requires forall i :: 0 <= i < |q| ==> q[i] != b
    ensures Find(q, b) == |q|
  {
  }

  lemma TestStep(sb: Super, s: State, ops: map<nat, nat>, j: nat, passed: set<nat>, p: nat)
    requires Logging(sb, s, ops, j, passed) && p in ops && p !in passed && j < LOGSIZE && j + 1 < sb.size
    ensures Can(sb, s, LogTest(p)) && Logging(sb, Do(sb, s, LogTest(p)), ops, j, passed + {p})
  {
    hide Clean;
  }

  lemma AppendStep(sb: Super, s: State, ops: map<nat, nat>, j: nat, passed: set<nat>, p: nat, v: Block)
    requires Logging(sb, s, ops, j, passed) && p in ops && p in passed && j < LOGSIZE && HomeBlock(sb, j) < UINT32
    ensures var e := Append(p, HomeBlock(sb, j), v);
            && Can(sb, s, e) && Logging(sb, Do(sb, s, e), ops[p := ops[p] + 1], j + 1, passed - {p})
            && Do(sb, s, e).cache == s.cache[HomeBlock(sb, j) := v]
  {
    FindAbsent(s.lh, HomeBlock(sb, j));
    assert HomeBlock(sb, j) in BlankDisk(sb).Keys;
    hide Find, BlankDisk;
    assert ops[p := ops[p] + 1].Keys == ops.Keys;
  }

  lemma SharesNext(k: nat, j: nat)
    requires k <= MAXOPBLOCKS && j < k + 2 * MAXOPBLOCKS
    ensures var p := Who(k, j);
            && p in Shares(k, j) && Shares(k, j)[p := Shares(k, j)[p] + 1] == Shares(k, j + 1)
            && Modest(Shares(k, j)) && Modest(Shares(k, j + 1))
  {
  }

  lemma FillStep(sb: Super, s: State, k: nat, j: nat)
    requires Filled(sb, s, k, j) && j < LOGSIZE && j + 1 < sb.size && j < k + 2 * MAXOPBLOCKS && k <= MAXOPBLOCKS
    requires HomeBlock(sb, j) < UINT32
    ensures var p := Who(k, j);
            && Can(sb, s, LogTest(p))
            && var s1 := Do(sb, s, LogTest(p)); var e := Append(p, HomeBlock(sb, j), ZeroBlock());
               && Can(sb, s1, e) && Modest(s1.ops)
               && Filled(sb, Do(sb, s1, e), k, j + 1) && Modest(Do(sb, s1, e).ops)
  {
    var p := Who(k, j);
    SharesNext(k, j);
    hide Shares, Who, Can, Do, Clean, Modest, Logging;
    assert Logging(sb, s, Shares(k, j), j, {});
    TestStep(sb, s, Shares(k, j), j, {}, p);
    var s1 := Do(sb, s, LogTest(p));
    OpsOf(sb, s1, Shares(k, j), j, {} + {p});
    AppendStep(sb, s1, Shares(k, j), j, {} + {p}, p, ZeroBlock());
    OpsOf(sb, Do(sb, s1, Append(p, HomeBlock(sb, j), ZeroBlock())), Shares(k, j + 1), j + 1, {} + {p} - {p});
    assert {} + {p} - {p} == {};
  }

  lemma {:induction false} Fill(sb: Super, k: nat, j: nat) returns (es: seq<Event>)
    requires 1 <= sb.size && j < sb.size && j <= LOGSIZE && sb.start + sb.size + LOGSIZE <= UINT32
    requires k <= MAXOPBLOCKS && j <= k + 2 * MAXOPBLOCKS
    ensures var s := BlankBoot(sb);
            ValidRun(sb, s, es) && ModestRun(sb, s, es) && Filled(sb, Final(sb, s, es), k, j)
  {
    hide DoDiskStep, Filled, At, Do, Can, Modest, BlankBoot;
    if j == 0 {
      es := OpenThree(sb, k);
    } else {
      es := Fill(sb, k, j - 1);
      var s := BlankBoot(sb);
      FillStep(sb, Final(sb, s, es), k, j - 1);
      var p := Who(k, j - 1);
      Extend(sb, s, es, LogTest(p));
      Extend(sb, s, es + [LogTest(p)], Append(p, HomeBlock(sb, j - 1), ZeroBlock()));
      es := es + [LogTest(p)] + [Append(p, HomeBlock(sb, j - 1), ZeroBlock())];
    }
  }

  // ----- When log_write's test passes -----

  /** Operations within their reservations: whoever has logged k fresh blocks passes the test of its
      next log_write, for a fresh block or one that is logged already. */
  ghost predicate TestPasses(sb: Super, k: nat) {
    forall s, es, p ::
      Boot(sb, s) && ValidRun(sb, s, es) && ModestRun(sb, s, es) && Asks(sb, Final(sb, s, es), p, k)
      ==> !Panics(sb, Final(sb, s, es), LogTest(p))
  }

  predicate Asks(sb: Super, s: State, p: nat, k: nat) {
    Enabled(sb, s, LogTest(p)) && s.ops[p] == k
  }

  /** Nobody logs more fresh blocks than the log has slots. */
  predicate WithinSlots(sb: Super, s: State) {
    forall p :: p in s.ops ==>
      s.ops[p] <= |s.lh| && s.ops[p] < sb.size && (p in s.passed ==> s.ops[p] + 1 < sb.size)
  }

  lemma SlotsStep(sb: Super, s: State, e: Event)
    requires Control(s) && Can(sb, s, e) && WithinSlots(sb, s) && sb.size >= 1
    ensures WithinSlots(sb, Do(sb, s, e))
  {
    hide DoDiskStep;
    if e.DiskStep? {
      DiskStepControl(sb, s);
    }
  }

  lemma {:induction false} SlotsHold(sb: Super, s: State, es: seq<Event>)
    requires Boot(sb, s) && ValidRun(sb, s, es) && sb.size >= 1
    ensures WithinSlots(sb, Final(sb, s, es))
    decreases |es|
  {
    hide WithinSlots, Control, Do;
    if es == [] {
      BootWithinSlots(sb, s);
    } else {
      var n := |es| - 1;
      SlotsHold(sb, s, es[..n]);
      ControlHolds(sb, s, es[..n]);
      SlotsStep(sb, Final(sb, s, es[..n]), es[n]);
    }
  }

  lemma BootWithinSlots(sb: Super, s: State)
    requires Boot(sb, s)
    ensures WithinSlots(sb, s)
  {
  }

  lemma AskerPasses(sb: Super, s: State, p: nat, k: nat)
    requires Control(s) && Reserved(s) && Modest(s.ops) && Asks(sb, s, p, k)
    requires k < MAXOPBLOCKS && LOGSIZE - MAXOPBLOCKS + k + 1 < sb.size
    ensures !Panics(sb, s, LogTest(p))
  {
    ReservedBound(s, p);
    LogTestPanicsIff(sb, s, p);
  }

  lemma FilledRefuses(sb: Super, s: State, k: nat)
    requires sb.size > k && Filled(sb, s, k, if LOGSIZE < sb.size then LOGSIZE else sb.size - 1) && k <= LOGSIZE
    ensures Asks(sb, s, 0, k) && Panics(sb, s, LogTest(0))
  {
  }

  /** Exactly when an operation that has logged k fresh blocks can rely on its next log_write: it has
      not used up its reservation and the log has more than LOGSIZE - MAXOPBLOCKS + 1 + k blocks. (A log
      of at most k blocks lets nobody log k.) */
  lemma TestPassesIff(sb: Super, k: nat)
    requires 1 <= sb.size && sb.start + sb.size + LOGSIZE <= UINT32 && k <= MAXOPBLOCKS
    ensures TestPasses(sb, k) <==>
            sb.size <= k || (k < MAXOPBLOCKS && LOGSIZE - MAXOPBLOCKS + k + 1 < sb.size)
  {
    hide DoDiskStep, Filled, Do, Can, ModestRun, Boot, At, Panics, Control, Reserved, Modest;
    if k < MAXOPBLOCKS && LOGSIZE - MAXOPBLOCKS + k + 1 < sb.size {
      forall s, es, p | Boot(sb, s) && ValidRun(sb, s, es) && ModestRun(sb, s, es) && Asks(sb, Final(sb, s, es), p, k)
        ensures !Panics(sb, Final(sb, s, es), LogTest(p))
      {
        ReservationHolds(sb, s, es);
        ModestAtEnd(sb, s, es);
        AskerPasses(sb, Final(sb, s, es), p, k);
      }
    } else if sb.size <= k {
      forall s, es, p | Boot(sb, s) && ValidRun(sb, s, es) && Asks(sb, Final(sb, s, es), p, k)
        ensures false
      {
        SlotsHold(sb, s, es);
      }
    } else {
      var j := if LOGSIZE < sb.size then LOGSIZE else sb.size - 1;
      var es := Fill(sb, k, j);
      BlankBoots(sb);
      FilledRefuses(sb, Final(sb, BlankBoot(sb), es), k);
    }
  }

  /** All fresh writes within the reservations succeed exactly when the log has a header and LOGSIZE
      slots. mkfs makes it LOGSIZE blocks in all, one short. */
  lemma FreshWritesSucceedIff(sb: Super)
    requires 1 <= sb.size && sb.start + sb.size + LOGSIZE <= UINT32
    ensures (forall k: nat :: k < MAXOPBLOCKS ==> TestPasses(sb, k)) <==> LOGSIZE < sb.size
  {
    hide TestPasses;
    forall k: nat | k < MAXOPBLOCKS
      ensures TestPasses(sb, k) <==> sb.size <= k || LOGSIZE - MAXOPBLOCKS + k + 1 < sb.size
    {
      TestPassesIff(sb, k);
    }
    if sb.size <= LOGSIZE {
      var k: nat := if sb.size <= MAXOPBLOCKS then sb.size - 1 else MAXOPBLOCKS - 1;
      assert !TestPasses(sb, k);
    }
  }

  /** No size makes every log_write of an operation within its reservation succeed: once it has used up
      the reservation, writing again to a block it has logged can fail. */
  lemma NoSizeSuffices(sb: Super)
    requires 1 <= sb.size && sb.start + sb.size + LOGSIZE <= UINT32
    ensures exists k: nat :: k <= MAXOPBLOCKS && !TestPasses(sb, k)
  {
    hide TestPasses;
    var k: nat := if sb.size <= MAXOPBLOCKS then sb.size - 1 else MAXOPBLOCKS;
    TestPassesIff(sb, k);
  }

  // ----- The run in which two calls of log_write race -----

  function OneBlock(): Block {
    seq(512, _ => 1)
  }

  /** The commit of a header with one block too many, t of them copied to the log; the last one holds
      ones, and the home block that lies behind the log holds zeros. */
  ghost predicate Writing(sb: Super, s: State, t: nat) {
    && s.phase == WriteLog(t) && s.ops == map[] && |s.lh| == sb.size
    && (forall i :: 0 <= i < sb.size ==> s.lh[i] == HomeBlock(sb, i))
    && (sb.size > 0 ==> HomeBlock(sb, sb.size - 1) in s.cache && s.cache[HomeBlock(sb, sb.size - 1)] == OneBlock())
    && Entries(At(s.disk, sb.start)) == []
    && HomeBlock(sb, 0) in s.disk && At(s.disk, HomeBlock(sb, 0)) == ZeroBlock()
  }

  lemma WriteOn(sb: Super, s: State, t: nat)
    requires Writing(sb, s, t) && t + 1 < sb.size
    ensures Can(sb, s, DiskStep) && Modest(Do(sb, s, DiskStep).ops) && Writing(sb, Do(sb, s, DiskStep), t + 1)
  {
    hide Entries, HeadBlock;
  }

  /** The last copy goes to the home block behind the log, before anything is committed. */
  lemma Spoils(sb: Super, s: State)
    requires sb.size > 0 && Writing(sb, s, sb.size - 1)
    ensures Can(sb, s, DiskStep) && Modest(Do(sb, s, DiskStep).ops)
    ensures sb.Home(s.disk, sb.start + sb.size) && Label(s, DiskStep) == Stutter
    ensures At(Do(sb, s, DiskStep).disk, sb.start + sb.size) != At(s.disk, sb.start + sb.size)
    ensures Abs(sb, Do(sb, s, DiskStep)) != Abs(sb, s)
  {
    hide Entries, HeadBlock;
    var s' := Do(sb, s, DiskStep);
    var h := HomeBlock(sb, 0);
    assert OneBlock()[0] != ZeroBlock()[0];
    assert At(s'.disk, h) == OneBlock() && At(s'.disk, sb.start) == At(s.disk, sb.start);
    assert h in Abs(sb, s).durable && h in Abs(sb, s').durable;
    assert Abs(sb, s).durable[h] == ZeroBlock() && Abs(sb, s').durable[h] == OneBlock();
  }

  lemma EndStep(sb: Super, s: State, ops: map<nat, nat>, j: nat, p: nat)
    requires Logging(sb, s, ops, j, {}) && p in ops && |ops| > 1
    ensures Can(sb, s, End(p)) && Logging(sb, Do(sb, s, End(p)), ops - {p}, j, {})
    ensures Do(sb, s, End(p)).cache == s.cache
  {
    hide Clean;
    assert ops.Keys == (ops - {p}).Keys + {p};
  }

  lemma LastEnd(sb: Super, s: State, ops: map<nat, nat>, p: nat)
    requires Logging(sb, s, ops, sb.size, {}) && ops.Keys == {p} && 0 < sb.size
    requires HomeBlock(sb, sb.size - 1) in s.cache && s.cache[HomeBlock(sb, sb.size - 1)] == OneBlock()
    ensures Can(sb, s, End(p)) && Writing(sb, Do(sb, s, End(p)), 0)
  {
    hide Entries, At;
    assert |ops| == 1 && ops - {p} == map[];
    assert HomeBlock(sb, 0) in BlankDisk(sb).Keys;
  }

  lemma OpsOf(sb: Super, s: State, ops: map<nat, nat>, j: nat, passed: set<nat>)
    requires Logging(sb, s, ops, j, passed)
    ensures s.ops == ops
  {
  }

  lemma RaceShares(n: nat)
    requires n + 2 <= LOGSIZE
    ensures var ops := Shares(MAXOPBLOCKS - 1, n);
            && ops.Keys == {0, 1, 2} && Modest(ops) && Modest(ops[0 := ops[0] + 1])
            && Modest(ops[0 := ops[0] + 1][2 := ops[2] + 1])
  {
  }

  /** es is a run from the blank disk, of operations within their reservations, that leaves ops open. */
  ghost predicate Leaves(sb: Super, es: seq<Event>, ops: map<nat, nat>, j: nat, passed: set<nat>) {
    var s := BlankBoot(sb);
    ValidRun(sb, s, es) && ModestRun(sb, s, es) && Logging(sb, Final(sb, s, es), ops, j, passed)
  }

  /** After es block b is pinned with contents v. */
  ghost predicate Pinned(sb: Super, es: seq<Event>, b: nat, v: Block) {
    var s := BlankBoot(sb);
    ValidRun(sb, s, es) && b in Final(sb, s, es).cache && Final(sb, s, es).cache[b] == v
  }

  lemma RunTest(sb: Super, es: seq<Event>, ops: map<nat, nat>, j: nat, passed: set<nat>, p: nat, passed': set<nat>)
    returns (es': seq<Event>)
    requires Leaves(sb, es, ops, j, passed) && p in ops && p !in passed && j < LOGSIZE && j + 1 < sb.size
    requires Modest(ops) && passed' == passed + {p}
    ensures Leaves(sb, es', ops, j, passed')
  {
    hide Can, Do, Modest, Logging, BlankBoot;
    var s := BlankBoot(sb);
    TestStep(sb, Final(sb, s, es), ops, j, passed, p);
    OpsOf(sb, Do(sb, Final(sb, s, es), LogTest(p)), ops, j, passed');
    es' := ThenThis(sb, s, es, LogTest(p));
  }

  lemma RunAppends(sb: Super, es: seq<Event>, ops: map<nat, nat>, j: nat, passed: set<nat>, p: nat, v: Block,
      ops': map<nat, nat>, passed': set<nat>) returns (es': seq<Event>)
    requires Leaves(sb, es, ops, j, passed) && p in ops && p in passed && j < LOGSIZE && HomeBlock(sb, j) < UINT32
    requires ops' == ops[p := ops[p] + 1] && Modest(ops') && passed' == passed - {p}
    ensures Leaves(sb, es', ops', j + 1, passed')
    ensures Pinned(sb, es', HomeBlock(sb, j), v)
  {
    hide Can, Do, Modest, Logging, BlankBoot;
    var s, e := BlankBoot(sb), Append(p, HomeBlock(sb, j), v);
    AppendStep(sb, Final(sb, s, es), ops, j, passed, p, v);
    OpsOf(sb, Do(sb, Final(sb, s, es), e), ops', j + 1, passed');
    es' := ThenThis(sb, s, es, e);
  }

  lemma RunEnd(sb: Super, es: seq<Event>, ops: map<nat, nat>, j: nat, p: nat, ops': map<nat, nat>, b: nat, v: Block)
    returns (es': seq<Event>)
    requires Pinned(sb, es, b, v)
    requires Leaves(sb, es, ops, j, {}) && p in ops && |ops| > 1 && ops' == ops - {p} && Modest(ops')
    ensures Leaves(sb, es', ops', j, {}) && Pinned(sb, es', b, v)
  {
    hide Can, Do, Modest, Logging, BlankBoot;
    var s := BlankBoot(sb);
    EndStep(sb, Final(sb, s, es), ops, j, p);
    OpsOf(sb, Do(sb, Final(sb, s, es), End(p)), ops', j, {});
    es' := ThenThis(sb, s, es, End(p));
  }

  /** Two operations pass the test while there is room for one block. */
  lemma RaceTests(sb: Super, n: nat) returns (es: seq<Event>)
    requires n + 2 == sb.size <= LOGSIZE && sb.start + sb.size + LOGSIZE <= UINT32
    ensures Leaves(sb, es, Shares(MAXOPBLOCKS - 1, n), n, {0, 2})
  {
    var ops := Shares(MAXOPBLOCKS - 1, n);
    RaceShares(n);
    es := Fill(sb, MAXOPBLOCKS - 1, n);
    hide Modest, Logging, BlankBoot, Shares, Final, ValidRun, ModestRun;
    assert Leaves(sb, es, ops, n, {});
    hide Leaves;
    es := RunTest(sb, es, ops, n, {}, 0, {0});
    es := RunTest(sb, es, ops, n, {0}, 2, {0, 2});
  }

  /** And both append: the header lists one block more than the log has slots. */
  lemma RaceAppends(sb: Super, n: nat) returns (es: seq<Event>, ops: map<nat, nat>)
    requires n + 2 == sb.size <= LOGSIZE && sb.start + sb.size + LOGSIZE <= UINT32
    ensures ops.Keys == {0, 1, 2} && Modest(ops) && Leaves(sb, es, ops, sb.size, {})
    ensures Pinned(sb, es, HomeBlock(sb, n + 1), OneBlock())
  {
    RaceShares(n);
    es := RaceTests(sb, n);
    var ops0 := Shares(MAXOPBLOCKS - 1, n);
    hide *;
    var ops1 := ops0[0 := ops0[0] + 1];
    ops := ops1[2 := ops1[2] + 1];
    es := BothAppend(sb, es, n, ops0, ops1, ops, ZeroBlock(), OneBlock());
  }

  lemma BothAppend(sb: Super, es: seq<Event>, n: nat, ops0: map<nat, nat>, ops1: map<nat, nat>, ops2: map<nat, nat>,
      v: Block, w: Block) returns (es': seq<Event>)
    requires n + 1 < LOGSIZE && HomeBlock(sb, n + 1) < UINT32 && Leaves(sb, es, ops0, n, {0, 2})
    requires 0 in ops0 && ops1 == ops0[0 := ops0[0] + 1] && 2 in ops1 && ops2 == ops1[2 := ops1[2] + 1]
    requires Modest(ops1) && Modest(ops2)
    ensures Leaves(sb, es', ops2, n + 2, {}) && Pinned(sb, es', HomeBlock(sb, n + 1), w)
  {
    hide Modest, BlankBoot, Leaves, Pinned;
    es' := RunAppends(sb, es, ops0, n, {0, 2}, 0, v, ops1, {2});
    es' := RunAppends(sb, es', ops1, n + 1, {2}, 2, w, ops2, {});
  }

  lemma ModestLess(ops: map<nat, nat>, p: nat)
    requires Modest(ops)
    ensures Modest(ops - {p})
  {
  }

  /** A run of operations within their reservations, from boot, to a commit with one block too many. */
  lemma RaceRun(sb: Super) returns (es: seq<Event>)
    requires 2 <= sb.size <= LOGSIZE && sb.start + sb.size + LOGSIZE <= UINT32
    ensures var s := BlankBoot(sb);
            ValidRun(sb, s, es) && ModestRun(sb, s, es) && Writing(sb, Final(sb, s, es), 0)
  {
    var ops;
    es, ops := RaceAppends(sb, sb.size - 2);
    es := RaceEnds(sb, es, ops);
    var s := BlankBoot(sb);
    hide Can, Do, Modest, Logging, Writing, BlankBoot, OneBlock;
    LastEnd(sb, Final(sb, s, es), ops - {0} - {1}, 2);
    NothingOpen(sb, Do(sb, Final(sb, s, es), End(2)));
    es := ThenThis(sb, s, es, End(2));
  }

  lemma RaceEnds(sb: Super, es: seq<Event>, ops: map<nat, nat>) returns (es': seq<Event>)
    requires ops.Keys == {0, 1, 2} && Modest(ops) && Leaves(sb, es, ops, sb.size, {})
    requires 2 <= sb.size && Pinned(sb, es, HomeBlock(sb, sb.size - 1), OneBlock())
    ensures (ops - {0} - {1}).Keys == {2} && Leaves(sb, es', ops - {0} - {1}, sb.size, {})
    ensures Pinned(sb, es', HomeBlock(sb, sb.size - 1), OneBlock())
  {
    hide Leaves, Pinned, OneBlock, HomeBlock;
    var ops1 := ops - {0};
    ModestLess(ops, 0);
    ModestLess(ops1, 1);
    assert ops1.Keys == {1, 2} && (ops1 - {1}).Keys == {2};
    assert |ops.Keys| == 3 && |ops1.Keys| == 2;
    hide Modest;
    es' := RunEnd(sb, es, ops, sb.size, 0, ops1, HomeBlock(sb, sb.size - 1), OneBlock());
    es' := RunEnd(sb, es', ops1, sb.size, 1, ops1 - {1}, HomeBlock(sb, sb.size - 1), OneBlock());
  }

  lemma NothingOpen(sb: Super, s: State)
    requires Writing(sb, s, 0)
    ensures Modest(s.ops)
  {
  }

  lemma ThenThis(sb: Super, s: State, es: seq<Event>, e: Event) returns (es': seq<Event>)
    requires ValidRun(sb, s, es) && ModestRun(sb, s, es) && Can(sb, Final(sb, s, es), e)
    requires Modest(Do(sb, Final(sb, s, es), e).ops)
    ensures es' == es + [e] && ValidRun(sb, s, es') && ModestRun(sb, s, es')
    ensures Final(sb, s, es') == Do(sb, Final(sb, s, es), e)
  {
    Extend(sb, s, es, e);
    es' := es + [e];
  }

  lemma {:induction false} WriteRun(sb: Super, t: nat) returns (es: seq<Event>)
    requires 2 <= sb.size <= LOGSIZE && sb.start + sb.size + LOGSIZE <= UINT32 && t < sb.size
    ensures var s := BlankBoot(sb);
            ValidRun(sb, s, es) && ModestRun(sb, s, es) && Writing(sb, Final(sb, s, es), t)
  {
    hide Can, Do, Modest, Writing, BlankBoot;
    if t == 0 {
      es := RaceRun(sb);
    } else {
      es := WriteRun(sb, t - 1);
      WriteOn(sb, Final(sb, BlankBoot(sb), es), t - 1);
      es := ThenThis(sb, BlankBoot(sb), es, DiskStep);
    }
  }

  /** With a log of 2 to LOGSIZE blocks there is a run from boot, of operations that all stay within
      their reservations and pass their tests, that writes a home block before the commit. */
  lemma RacingWritesSpoil(sb: Super) returns (es: seq<Event>)
    requires 2 <= sb.size <= LOGSIZE && sb.start + sb.size + LOGSIZE <= UINT32
    ensures var s := BlankBoot(sb);
            && Boot(sb, s) && ValidRun(sb, s, es) && ModestRun(sb, s, es)
            && var f := Final(sb, s, es); var h := sb.start + sb.size;
               && f.phase.WriteLog? && Can(sb, f, DiskStep) && sb.Home(f.disk, h)
               && At(Do(sb, f, DiskStep).disk, h) != At(f.disk, h)
               && Abs(sb, Do(sb, f, DiskStep)) != Act(Abs(sb, f), Label(f, DiskStep))
               && Modest(Do(sb, f, DiskStep).ops)
  {
    BlankBoots(sb);
    es := WriteRun(sb, sb.size - 1);
    hide Can, Do, Modest, Abs, BlankBoot;
    Spoils(sb, Final(sb, BlankBoot(sb), es));
  }

  lemma BootInv(sb: Super, s: State)
    requires Boot(sb, s)
    ensures Inv(sb, s)
  {
  }

  /** The log refines the atomic disk in every run of operations within their reservations exactly when
      it has more than LOGSIZE blocks (or no slot at all). mkfs gives it LOGSIZE. */
  lemma RefinesAlwaysIff(sb: Super)
    requires 1 <= sb.size && sb.start + sb.size + LOGSIZE <= UINT32
    ensures RefinesAlways(sb) <==> sb.size == 1 || LOGSIZE < sb.size
  {
    hide Can, Do, Modest, Abs, Inv, Act, Label, BlankBoot;
    if sb.size == 1 || LOGSIZE < sb.size {
      forall s, es | Boot(sb, s) && ValidRun(sb, s, es) && ModestRun(sb, s, es)
        ensures Abs(sb, Final(sb, s, es)) == Acts(sb, s, es, Abs(sb, s))
      {
        LargeLogFits(sb, s, es);
        BootInv(sb, s);
        RunRefines(sb, s, es);
      }
    } else {
      var s := BlankBoot(sb);
      var es := RacingWritesSpoil(sb);
      var es' := ThenThis(sb, s, es, DiskStep);
      assert es'[..|es'| - 1] == es;
      assert Acts(sb, s, es', Abs(sb, s)) == Act(Acts(sb, s, es, Abs(sb, s)), Label(Final(sb, s, es), DiskStep));
    }
  }
}
