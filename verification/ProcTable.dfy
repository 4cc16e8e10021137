/** The process table of proc.c. Every method is one critical section under ptable.lock (or the
    unlocked writes of fork to the embryo it owns), run by a process that is RUNNING or by the
    scheduler of a CPU, so its contract holds of every interleaving on any number of CPUs. */
module ProcTable {
  datatype ProcState = UNUSED | EMBRYO | SLEEPING | RUNNABLE | RUNNING | ZOMBIE

  /** What a process sleeps on: itself, in wait, or something else. */
  datatype Chan = NoChan | WaitOn(proc: nat) | Other(id: nat)

  /** parent is an index into the table, or -1 for none. */
  datatype Proc = Proc(state: ProcState, pid: nat, parent: int, chan: Chan, killed: bool, burst: int)

  type Procs = seq<Proc>

  /** What one pass of wait comes to: a child reaped, -1 returned, or sleep. */
  datatype Waited = Child(slot: nat, pid: nat) | Failed | Slept

  // ----- The scheduler's choice -----

  predicate Ready(ps: Procs, i: int) {
    0 <= i < |ps| && ps[i].state == RUNNABLE
  }

  /** k is the lowest index below n of a RUNNABLE process of least burst_time. */
  predicate IsLeast(ps: Procs, n: nat, k: int) {
    Ready(ps, k) && k < n && forall j :: 0 <= j < n && Ready(ps, j) ==>
      ps[k].burst < ps[j].burst || (ps[k].burst == ps[j].burst && k <= j)
  }

  /** The choice goes wrong: the least burst_time is -1, the loop's own mark for "none yet",
      and a later process is RUNNABLE too. */
  ghost predicate SentinelHides(ps: Procs) {
    exists k, j :: IsLeast(ps, |ps|, k) && ps[k].burst == -1 && k < j && Ready(ps, j)
  }

  /** The inner loop of scheduler(). It picks the first process of least burst_time exactly when
      that burst_time is not hidden by the sentinel. */
  method Pick(ps: Procs) returns (next: int)
    requires exists i :: Ready(ps, i)
    ensures Ready(ps, next)
    ensures IsLeast(ps, |ps|, next) <==> !SentinelHides(ps)
    ensures 0 <= next < |ps| && ps[next].state == RUNNABLE
    ensures (forall j :: 0 <= j < |ps| && ps[j].state == RUNNABLE ==> ps[j].burst > -1) ==>
              forall j :: 0 <= j < |ps| && ps[j].state == RUNNABLE ==>
                ps[next].burst < ps[j].burst || (ps[next].burst == ps[j].burst && next <= j)
  {
    next := -1;
    var mi := -1;
    ghost var k := -1;
    var p := 0;
    while p < |ps|
      invariant 0 <= p <= |ps|
      invariant if k == -1 then next == -1 && mi == -1 && forall j :: 0 <= j < p ==> !Ready(ps, j)
                else IsLeast(ps, p, k) && Ready(ps, next) && k <= next < p && mi == ps[next].burst
      invariant k != -1 && ps[k].burst != -1 ==> next == k
      invariant k != -1 && ps[k].burst == -1 ==> (next == k <==> forall j :: k < j < p ==> !Ready(ps, j))
    {
      if ps[p].state == RUNNABLE {
        assert Ready(ps, p);
        if mi == -1 {
          mi := ps[p].burst;
          next := p;
        } else if ps[p].burst < mi {
          mi := ps[p].burst;
          next := p;
        }
        if k == -1 || ps[p].burst < ps[k].burst {
          k := p;
        }
      }
      p := p + 1;
    }
    assert k != -1 && IsLeast(ps, |ps|, k);
    assert IsLeast(ps, |ps|, next) ==> next == k;
    assert forall j :: 0 <= j < |ps| && ps[j].state == RUNNABLE ==> Ready(ps, j);
  }

  lemma SentinelExample(a: Proc, b: Proc)
    requires a.state == RUNNABLE && b.state == RUNNABLE && a.burst == -1 && b.burst > -1
    ensures SentinelHides([a, b])
  {
    var ps := [a, b];
    assert Ready(ps, 1) && IsLeast(ps, |ps|, 0) && ps[0].burst == -1;
  }

  // ----- Waking -----

  /** wakeup1(chan). */
  function Awoken(ps: Procs, chan: Chan): Procs {
    seq(|ps|, i requires 0 <= i < |ps| =>
      if ps[i].state == SLEEPING && ps[i].chan == chan then ps[i].(state := RUNNABLE) else ps[i])
  }

  /** exit's loop over the table: the children of i pass to init; a zombie among them wakes it. */
  function Orphaned(ps: Procs, i: int, init: nat): Procs {
    var given := seq(|ps|, j requires 0 <= j < |ps| => if ps[j].parent == i then ps[j].(parent := init) else ps[j]);
    if exists j :: 0 <= j < |ps| && ps[j].parent == i && ps[j].state == ZOMBIE then Awoken(given, WaitOn(init))
    else given
  }

  /** The children of i below index n handed to init, which is woken if a zombie is among them. */
  ghost predicate HandedOver(ps: Procs, i: int, init: nat, n: nat, r: Procs)
    requires n <= |ps|
  {
    && |r| == |ps|
    && var woke := exists j :: 0 <= j < n && ps[j].parent == i && ps[j].state == ZOMBIE;
       forall j :: 0 <= j < |ps| ==>
         r[j] == ps[j].(parent := if j < n && ps[j].parent == i then init else ps[j].parent,
                        state := if woke && ps[j].state == SLEEPING && ps[j].chan == WaitOn(init) then RUNNABLE
                                 else ps[j].state)
  }

  lemma HandedOverAll(ps: Procs, i: int, init: nat, r: Procs)
    requires HandedOver(ps, i, init, |ps|, r)
    ensures r == Orphaned(ps, i, init)
  {
  }

  method Orphan(ps: Procs, i: int, init: nat) returns (r: Procs)
    requires i != init
    ensures |r| == |ps| && r == Orphaned(ps, i, init)
    ensures forall j :: 0 <= j < |ps| ==> r[j].parent == if ps[j].parent == i then init else ps[j].parent
    ensures forall j :: 0 <= j < |ps| ==> r[j] == ps[j].(parent := r[j].parent, state := r[j].state)
    ensures (forall k :: 0 <= k < |ps| && ps[k].parent == i ==> ps[k].state != ZOMBIE) ==>
              forall j :: 0 <= j < |ps| ==> r[j].state == ps[j].state
    ensures (exists k :: 0 <= k < |ps| && ps[k].parent == i && ps[k].state == ZOMBIE) ==>
              forall j :: 0 <= j < |ps| ==>
                r[j].state == if ps[j].state == SLEEPING && ps[j].chan == WaitOn(init) then RUNNABLE else ps[j].state
  {
    r := ps;
    var p := 0;
    while p < |ps|
      invariant 0 <= p <= |ps| == |r|
      invariant HandedOver(ps, i, init, p, r)
    {
      if r[p].parent == i {
        r := r[p := r[p].(parent := init)];
        if r[p].state == ZOMBIE {
          r := Wakeup1(r, WaitOn(init));
        }
      }
      p := p + 1;
    }
    HandedOverAll(ps, i, init, r);
  }

  method Wakeup1(ps: Procs, chan: Chan) returns (r: Procs)
    ensures |r| == |ps| && r == Awoken(ps, chan)
    ensures forall j :: 0 <= j < |ps| ==>
              r[j] == if ps[j].state == SLEEPING && ps[j].chan == chan then ps[j].(state := RUNNABLE) else ps[j]
  {
    r := ps;
    var p := 0;
    while p < |ps|
      invariant 0 <= p <= |ps| == |r|
      invariant forall j :: 0 <= j < |ps| ==> r[j] == if j < p then Awoken(ps, chan)[j] else ps[j]
    {
      if r[p].state == SLEEPING && r[p].chan == chan {
        r := r[p := r[p].(state := RUNNABLE)];
      }
      p := p + 1;
    }
  }

  /** A process that other CPUs may find and run, or that waits to be reaped. */
  predicate Published(p: Proc) {
    p.state != UNUSED && p.state != EMBRYO
  }

  predicate Alive(p: Proc) {
    p.state == SLEEPING || p.state == RUNNABLE || p.state == RUNNING
  }

  /** kill looks at no state, so a ZOMBIE or a free slot whose old pid matches is found too. */
  predicate FirstWithPid(ps: Procs, pid: nat, k: int) {
    0 <= k < |ps| && ps[k].pid == pid && forall j :: 0 <= j < k ==> ps[j].pid != pid
  }

  predicate FirstFree(ps: Procs, k: int) {
    0 <= k < |ps| && ps[k].state == UNUSED && forall j :: 0 <= j < k ==> ps[j].state != UNUSED
  }

  function Killed(p: Proc): Proc {
    p.(killed := true, state := if p.state == SLEEPING then RUNNABLE else p.state)
  }

  // ----- The invariant -----

  /** A slot in use has a pid of its own, different also from what free slots still hold. */
  ghost predicate PidsOk(ps: Procs, nextpid: nat, reaped: set<nat>) {
    && nextpid > 0 && (forall i :: 0 <= i < |ps| ==> ps[i].pid < nextpid)
    && (forall i :: 0 <= i < |ps| && ps[i].state != UNUSED ==> ps[i].pid > 0 && ps[i].pid !in reaped)
    && (forall i, j :: 0 <= i < |ps| && 0 <= j < |ps| && i != j && ps[i].state != UNUSED ==> ps[i].pid != ps[j].pid)
    && (forall p :: p in reaped ==> p < nextpid)
  }

  /** A process is RUNNING exactly when it is the process of one CPU, home[i]. */
  ghost predicate CpusOk(ps: Procs, cpus: seq<int>, home: seq<int>) {
    && |home| == |ps|
    && (forall c :: 0 <= c < |cpus| && cpus[c] != -1 ==>
         0 <= cpus[c] < |ps| && ps[cpus[c]].state == RUNNING && home[cpus[c]] == c)
    && (forall i :: 0 <= i < |ps| && ps[i].state == RUNNING ==> 0 <= home[i] < |cpus| && cpus[home[i]] == i)
  }

  /** init lives for ever; every other published process has a living parent. */
  ghost predicate ParentsOk(ps: Procs, init: int) {
    && 0 <= init < |ps| && Alive(ps[init]) && ps[init].parent == -1
    && forall i :: 0 <= i < |ps| && Published(ps[i]) && i != init ==>
         0 <= ps[i].parent < |ps| && ps[i].parent != i && Alive(ps[ps[i].parent])
  }

  /** making[i] is the embryo that process i is filling in fork, or -1. */
  ghost predicate EmbryosOk(ps: Procs, making: seq<int>) {
    && |making| == |ps|
    && (forall i :: 0 <= i < |ps| && making[i] != -1 ==>
         Alive(ps[i]) && 0 <= making[i] < |ps| && ps[making[i]].state == EMBRYO)
    && (forall i, j :: 0 <= i < j < |ps| && making[i] != -1 ==> making[i] != making[j])
  }

  predicate InWait(ps: Procs, i: nat)
    requires i < |ps|
  {
    ps[i].state == SLEEPING && ps[i].chan == WaitOn(i)
  }

  /** Nobody sleeps in wait() while a child of it is a zombie. */
  ghost predicate WaitersOk(ps: Procs) {
    forall i, j :: 0 <= i < |ps| && 0 <= j < |ps| && InWait(ps, i) ==> !(ps[j].parent == i && ps[j].state == ZOMBIE)
  }

  // ----- What each kind of change keeps -----

  /** Only processes that stay alive change, and not their pids or parents. */
  ghost predicate AliveChange(ps: Procs, qs: Procs) {
    |qs| == |ps| && forall i :: 0 <= i < |ps| ==>
      && qs[i].pid == ps[i].pid && qs[i].parent == ps[i].parent
      && (qs[i].state == ps[i].state || (Alive(ps[i]) && Alive(qs[i])))
  }

  lemma AliveKeeps(ps: Procs, qs: Procs, nextpid: nat, reaped: set<nat>, init: int, making: seq<int>)
    requires AliveChange(ps, qs)
    ensures PidsOk(ps, nextpid, reaped) ==> PidsOk(qs, nextpid, reaped)
    ensures ParentsOk(ps, init) ==> ParentsOk(qs, init)
    ensures EmbryosOk(ps, making) ==> EmbryosOk(qs, making)
  {
  }

  /** Nobody new sleeps in wait() and nobody new is a zombie. */
  lemma WaitersKeep(ps: Procs, qs: Procs)
    requires WaitersOk(ps) && |qs| == |ps|
    requires forall i :: 0 <= i < |ps| ==> InWait(qs, i) ==> InWait(ps, i)
    requires forall i :: 0 <= i < |ps| && qs[i].state == ZOMBIE ==>
               ps[i].state == ZOMBIE && qs[i].parent == ps[i].parent
    ensures WaitersOk(qs)
  {
  }

  lemma CpusKeep(ps: Procs, qs: Procs, cpus: seq<int>, home: seq<int>)
    requires CpusOk(ps, cpus, home) && |qs| == |ps|
    requires forall i :: 0 <= i < |ps| ==> (qs[i].state == RUNNING <==> ps[i].state == RUNNING)
    ensures CpusOk(qs, cpus, home)
  {
  }

  /** Process i stops running: its CPU goes back to the scheduler. */
  lemma CpuFreed(ps: Procs, cpus: seq<int>, home: seq<int>, i: nat, p: Proc)
    requires CpusOk(ps, cpus, home) && i < |ps| && ps[i].state == RUNNING && p.state != RUNNING
    ensures 0 <= home[i] < |cpus| && CpusOk(ps[i := p], cpus[home[i] := -1], home)
  {
  }

  lemma OnCpu(ps: Procs, cpus: seq<int>, home: seq<int>, i: nat, c: nat)
    requires CpusOk(ps, cpus, home) && c < |cpus| && cpus[c] == i
    ensures |home| == |ps| && i < |ps| && home[i] == c
  {
  }

  /** i may go to sleep in wait() when none of its children is a zombie. */
  lemma Settled(ps: Procs, i: nat, p: Proc)
    requires WaitersOk(ps) && i < |ps| && p.parent == ps[i].parent && Alive(p)
    requires p.state == SLEEPING && p.chan == WaitOn(i) ==>
               forall j :: 0 <= j < |ps| ==> !(ps[j].parent == i && ps[j].state == ZOMBIE)
    ensures WaitersOk(ps[i := p])
  {
    var qs := ps[i := p];
    forall a: nat, b: nat | a < |ps| && b < |ps| && InWait(qs, a)
      ensures !(qs[b].parent == a && qs[b].state == ZOMBIE)
    {
      assert a != i ==> InWait(ps, a);
    }
  }

  lemma CpuTaken(ps: Procs, cpus: seq<int>, home: seq<int>, i: nat, c: nat, p: Proc)
    requires CpusOk(ps, cpus, home) && i < |ps| && ps[i].state != RUNNING && p.state == RUNNING
    requires c < |cpus| && cpus[c] == -1
    ensures |home| == |ps| && CpusOk(ps[i := p], cpus[c := i], home[i := c])
  {
  }

  lemma InUse(ps: Procs, making: seq<int>)
    requires EmbryosOk(ps, making)
    ensures |making| == |ps|
  {
  }

  function Embryo(p: Proc, pid: nat): Proc {
    p.(state := EMBRYO, pid := pid, burst := 1)
  }

  lemma MadePids(ps: Procs, np: nat, nextpid: nat, reaped: set<nat>)
    requires PidsOk(ps, nextpid, reaped) && np < |ps|
    ensures PidsOk(ps[np := Embryo(ps[np], nextpid)], nextpid + 1, reaped)
  {
  }

  lemma MadeEmbryos(ps: Procs, i: nat, np: nat, pid: nat, making: seq<int>)
    requires EmbryosOk(ps, making) && i < |ps| && np < |ps| && Alive(ps[i]) && ps[np].state == UNUSED
    ensures EmbryosOk(ps[np := Embryo(ps[np], pid)], making[i := np])
  {
  }

  lemma MadeParents(ps: Procs, np: nat, pid: nat, init: int)
    requires ParentsOk(ps, init) && np < |ps| && ps[np].state == UNUSED
    ensures ParentsOk(ps[np := Embryo(ps[np], pid)], init)
  {
  }

  lemma EmbryoMade(ps: Procs, i: nat, np: nat, nextpid: nat, reaped: set<nat>, init: int, making: seq<int>)
    requires PidsOk(ps, nextpid, reaped) && ParentsOk(ps, init) && EmbryosOk(ps, making)
    requires i < |ps| && np < |ps| && Alive(ps[i]) && ps[np].state == UNUSED
    ensures |making| == |ps|
    ensures var qs := ps[np := Embryo(ps[np], nextpid)];
            PidsOk(qs, nextpid + 1, reaped) && ParentsOk(qs, init) && EmbryosOk(qs, making[i := np])
  {
    InUse(ps, making);
    hide PidsOk, ParentsOk, EmbryosOk;
    MadePids(ps, np, nextpid, reaped);
    MadeParents(ps, np, nextpid, init);
    MadeEmbryos(ps, i, np, nextpid, making);
  }

  /** What fork makes of its embryo: RUNNABLE with its maker as parent, or UNUSED again. */
  predicate Grown(e: Proc, i: nat, p: Proc) {
    p == e.(state := UNUSED) || p == e.(state := RUNNABLE, parent := i)
  }

  lemma DonePids(ps: Procs, np: nat, i: nat, p: Proc, nextpid: nat, reaped: set<nat>)
    requires PidsOk(ps, nextpid, reaped) && np < |ps| && ps[np].state == EMBRYO && Grown(ps[np], i, p)
    ensures PidsOk(ps[np := p], nextpid, reaped)
  {
  }

  lemma DoneParents(ps: Procs, np: nat, i: nat, p: Proc, init: int)
    requires ParentsOk(ps, init) && i < |ps| && Alive(ps[i])
    requires np < |ps| && ps[np].state == EMBRYO && Grown(ps[np], i, p)
    ensures ParentsOk(ps[np := p], init)
  {
  }

  lemma DoneEmbryos(ps: Procs, i: nat, p: Proc, making: seq<int>)
    requires EmbryosOk(ps, making) && i < |ps| && making[i] != -1 && Grown(ps[making[i]], i, p)
    ensures EmbryosOk(ps[making[i] := p], making[i := -1])
  {
  }

  lemma EmbryoDone(ps: Procs, i: nat, p: Proc, nextpid: nat, reaped: set<nat>, init: int, making: seq<int>)
    requires PidsOk(ps, nextpid, reaped) && ParentsOk(ps, init) && EmbryosOk(ps, making)
    requires i < |ps| && making[i] != -1 && Grown(ps[making[i]], i, p)
    ensures 0 <= making[i] < |ps|
    ensures var qs := ps[making[i] := p];
            PidsOk(qs, nextpid, reaped) && ParentsOk(qs, init) && EmbryosOk(qs, making[i := -1])
  {
    var np := making[i];
    assert ps[np].state == EMBRYO && Alive(ps[i]);
    hide PidsOk, ParentsOk, EmbryosOk;
    DonePids(ps, np, i, p, nextpid, reaped);
    DoneParents(ps, np, i, p, init);
    DoneEmbryos(ps, i, p, making);
  }

  lemma PidBelow(ps: Procs, k: nat, nextpid: nat, reaped: set<nat>)
    requires PidsOk(ps, nextpid, reaped) && k < |ps|
    ensures ps[k].pid < nextpid
  {
  }

  /** If a slot in use has the pid of slot k, it is slot k. */
  lemma OnePid(ps: Procs, k: nat, nextpid: nat, reaped: set<nat>)
    requires PidsOk(ps, nextpid, reaped) && k < |ps|
    ensures forall j :: 0 <= j < |ps| && ps[j].state != UNUSED && ps[j].pid == ps[k].pid ==> j == k
  {
  }

  lemma AwokenChange(ps: Procs, chan: Chan)
    ensures AliveChange(ps, Awoken(ps, chan))
    ensures forall i :: 0 <= i < |ps| ==> InWait(Awoken(ps, chan), i) ==> InWait(ps, i)
    ensures forall i :: 0 <= i < |ps| ==> (Awoken(ps, chan)[i].state == RUNNING <==> ps[i].state == RUNNING)
    ensures forall i :: 0 <= i < |ps| ==> (Awoken(ps, chan)[i].state == ZOMBIE <==> ps[i].state == ZOMBIE)
  {
  }

  /** The slot of a zombie child that wait has taken. */
  function Freed(p: Proc): Proc {
    p.(state := UNUSED, pid := 0, parent := -1, killed := false)
  }

  lemma ReapPids(ps: Procs, j: nat, nextpid: nat, reaped: set<nat>)
    requires PidsOk(ps, nextpid, reaped) && j < |ps| && ps[j].state == ZOMBIE
    ensures ps[j].pid !in reaped && PidsOk(ps[j := Freed(ps[j])], nextpid, reaped + {ps[j].pid})
  {
  }

  lemma ReapOthers(ps: Procs, j: nat, init: int, making: seq<int>)
    requires ParentsOk(ps, init) && EmbryosOk(ps, making) && j < |ps| && ps[j].state == ZOMBIE
    ensures ParentsOk(ps[j := Freed(ps[j])], init) && EmbryosOk(ps[j := Freed(ps[j])], making)
  {
  }

  /** A zombie is reaped: its slot is free and its pid will not come back. */
  lemma Reap(ps: Procs, j: nat, nextpid: nat, reaped: set<nat>, init: int, making: seq<int>)
    requires PidsOk(ps, nextpid, reaped) && ParentsOk(ps, init) && EmbryosOk(ps, making) && WaitersOk(ps)
    requires j < |ps| && ps[j].state == ZOMBIE
    ensures ps[j].pid !in reaped
    ensures var qs := ps[j := Freed(ps[j])];
            PidsOk(qs, nextpid, reaped + {ps[j].pid}) && ParentsOk(qs, init) && EmbryosOk(qs, making) && WaitersOk(qs)
  {
    hide PidsOk, ParentsOk, EmbryosOk, WaitersOk;
    ReapPids(ps, j, nextpid, reaped);
    ReapOthers(ps, j, init, making);
    WaitersKeep(ps, ps[j := Freed(ps[j])]);
  }

  /** What exit leaves: parent woken, children given to init, i a zombie. */
  function Exited(ps: Procs, i: nat, init: nat): Procs
    requires i < |ps| && ps[i].parent >= 0
  {
    var qs := Orphaned(Awoken(ps, WaitOn(ps[i].parent)), i, init);
    qs[i := qs[i].(state := ZOMBIE)]
  }

  /** The channels that exit of i wakes: its parent's, and init's for a zombie left behind. */
  predicate Rouses(ps: Procs, i: nat, init: nat, chan: Chan)
    requires i < |ps|
  {
    || (chan.WaitOn? && chan.proc == ps[i].parent)
    || (chan == WaitOn(init) && exists k :: 0 <= k < |ps| && ps[k].parent == i && ps[k].state == ZOMBIE)
  }

  /** Seen from one process j, what exit of i does. */
  lemma ExitedAt(ps: Procs, i: nat, init: nat, j: nat)
    requires i < |ps| && ps[i].parent >= 0 && j < |ps| && ps[i].parent != i
    ensures |Exited(ps, i, init)| == |ps|
    ensures var q := Exited(ps, i, init)[j];
            && q.pid == ps[j].pid && q.parent == (if ps[j].parent == i then init else ps[j].parent)
            && (if j == i then q.state == ZOMBIE
                else q.state == ps[j].state || (ps[j].state == SLEEPING && q.state == RUNNABLE))
            && (InWait(Exited(ps, i, init), j) ==> InWait(ps, j) && j != ps[i].parent)
    ensures forall k :: 0 <= k < |ps| && ps[k].parent == i && ps[k].state == ZOMBIE && init < |ps| ==>
              !InWait(Exited(ps, i, init), init)
  {
    var a := Awoken(ps, WaitOn(ps[i].parent));
    var o := Orphaned(a, i, init);
    assert |o| == |ps|;
    forall k | 0 <= k < |ps| && ps[k].parent == i && ps[k].state == ZOMBIE && init < |ps|
      ensures !InWait(Exited(ps, i, init), init)
    {
      assert a[k].parent == i && a[k].state == ZOMBIE;
    }
  }

  lemma ExitedIs(ps: Procs, i: nat, init: nat, j: nat)
    requires i < |ps| && ps[i].parent >= 0 && j < |ps| && ps[i].parent != i && ps[i].state == RUNNING
    ensures |Exited(ps, i, init)| == |ps|
    ensures var q, p := Exited(ps, i, init)[j], ps[j];
            q == p.(parent := if p.parent == i then init else p.parent,
                    state := if j == i then ZOMBIE
                             else if p.state == SLEEPING && Rouses(ps, i, init, p.chan) then RUNNABLE
                             else p.state)
  {
    var a := Awoken(ps, WaitOn(ps[i].parent));
    assert forall k :: 0 <= k < |ps| ==>
        a[k].parent == ps[k].parent && (a[k].state == ZOMBIE <==> ps[k].state == ZOMBIE);
  }

  /** What exit changes, for every process at once. */
  ghost predicate ExitChange(ps: Procs, i: nat, init: nat, qs: Procs)
    requires i < |ps|
  {
    && |qs| == |ps|
    && (forall j :: 0 <= j < |ps| ==>
         && qs[j].pid == ps[j].pid && qs[j].parent == (if ps[j].parent == i then init else ps[j].parent)
         && (if j == i then qs[j].state == ZOMBIE
             else qs[j].state == ps[j].state || (ps[j].state == SLEEPING && qs[j].state == RUNNABLE)))
    && (forall j :: 0 <= j < |ps| && InWait(qs, j) ==> InWait(ps, j) && j != ps[i].parent)
    && forall k :: 0 <= k < |ps| && ps[k].parent == i && ps[k].state == ZOMBIE && init < |ps| ==> !InWait(qs, init)
  }

  lemma ExitIsChange(ps: Procs, i: nat, init: nat)
    requires i < |ps| && ps[i].parent >= 0 && ps[i].parent != i
    ensures ExitChange(ps, i, init, Exited(ps, i, init))
  {
    hide Exited;
    ExitedAt(ps, i, init, i);
    forall j: nat | j < |ps|
      ensures var qs := Exited(ps, i, init);
              && qs[j].pid == ps[j].pid && qs[j].parent == (if ps[j].parent == i then init else ps[j].parent)
              && (if j == i then qs[j].state == ZOMBIE
                  else qs[j].state == ps[j].state || (ps[j].state == SLEEPING && qs[j].state == RUNNABLE))
              && (InWait(qs, j) ==> InWait(ps, j) && j != ps[i].parent)
    {
      ExitedAt(ps, i, init, j);
    }
  }

  lemma ExitPids(ps: Procs, i: nat, qs: Procs, nextpid: nat, reaped: set<nat>, init: nat, making: seq<int>)
    requires i < |ps| && making != [] && ps[i].state == RUNNING && ExitChange(ps, i, init, qs)
    requires PidsOk(ps, nextpid, reaped) && EmbryosOk(ps, making) && making[i] == -1
    ensures PidsOk(qs, nextpid, reaped) && EmbryosOk(qs, making)
  {
    assert PidsOk(qs, nextpid, reaped) by { hide EmbryosOk; }
    assert EmbryosOk(qs, making) by { hide PidsOk; }
  }

  lemma ExitParents(ps: Procs, i: nat, qs: Procs, init: nat)
    requires i < |ps| && i != init && ps[i].state == RUNNING && ExitChange(ps, i, init, qs)
    requires ParentsOk(ps, init)
    ensures ParentsOk(qs, init)
  {
  }

  lemma ExitWaiters(ps: Procs, i: nat, qs: Procs, init: nat)
    requires i < |ps| && ExitChange(ps, i, init, qs) && init < |ps|
    requires WaitersOk(ps) && ps[i].parent != i
    ensures WaitersOk(qs)
  {
    forall a: nat, b: nat | a < |ps| && b < |ps| && InWait(qs, a) && qs[b].state == ZOMBIE
      ensures qs[b].parent != a
    {
      assert InWait(ps, a);
    }
  }

  lemma ExitKeeps(ps: Procs, i: nat, nextpid: nat, reaped: set<nat>, init: nat, making: seq<int>)
    requires PidsOk(ps, nextpid, reaped) && ParentsOk(ps, init) && EmbryosOk(ps, making) && WaitersOk(ps)
    requires i < |ps| && i != init && ps[i].state == RUNNING && making[i] == -1
    ensures ps[i].parent >= 0
    ensures var qs := Exited(ps, i, init);
            && PidsOk(qs, nextpid, reaped) && ParentsOk(qs, init) && EmbryosOk(qs, making) && WaitersOk(qs)
            && |qs| == |ps| && qs[i].state == ZOMBIE
            && forall j :: 0 <= j < |ps| && j != i ==> (qs[j].state == RUNNING <==> ps[j].state == RUNNING)
  {
    assert Published(ps[i]);
    var qs := Exited(ps, i, init);
    ExitIsChange(ps, i, init);
    hide Exited, PidsOk, EmbryosOk, WaitersOk;
    assert |making| == |ps|;
    ExitPids(ps, i, qs, nextpid, reaped, init, making);
    ExitParents(ps, i, qs, init);
    ExitWaiters(ps, i, qs, init);
  }

  /** The table once userinit has made the first process. */
  function AtBoot(nproc: nat): Procs {
    seq(nproc, i => if i == 0 then Proc(RUNNABLE, 1, -1, NoChan, false, 1) else Proc(UNUSED, 0, -1, NoChan, false, 1))
  }

  lemma AtBootOk(nproc: nat, cpus: seq<int>)
    requires nproc > 0 && forall c :: 0 <= c < |cpus| ==> cpus[c] == -1
    ensures PidsOk(AtBoot(nproc), 2, {}) && CpusOk(AtBoot(nproc), cpus, seq(nproc, _ => -1))
    ensures ParentsOk(AtBoot(nproc), 0) && EmbryosOk(AtBoot(nproc), seq(nproc, _ => -1)) && WaitersOk(AtBoot(nproc))
  {
  }

  lemma NotOwnParent(ps: Procs, i: nat, init: int)
    requires ParentsOk(ps, init) && i < |ps| && ps[i].state == RUNNING && i != init
    ensures 0 <= ps[i].parent && ps[i].parent != i
  {
    assert Published(ps[i]);
  }

  class ProcTable {
    const init: nat
    var procs: Procs
    var cpus: seq<int>       // the process each CPU runs, or -1
    var holder: int          // the CPU whose scheduler holds ptable.lock, or -1 when it is free
    var nextpid: nat
    ghost var making: seq<int>
    ghost var home: seq<int>
    ghost var reaped: set<nat>

    ghost predicate Valid()
      reads this
    {
      && PidsOk(procs, nextpid, reaped) && CpusOk(procs, cpus, home) && ParentsOk(procs, init)
      && EmbryosOk(procs, making) && WaitersOk(procs)
      && -1 <= holder < |cpus| && (holder != -1 ==> cpus[holder] == -1)
    }

    /** Process i runs and may take the lock. */
    ghost predicate Current(i: int)
      reads this
    {
      0 <= i < |procs| && procs[i].state == RUNNING && holder == -1
    }

    /** What holds between any two of these methods, in the fields' own words: pids are unique, no pid comes
        back, who runs is on one CPU, a process in use other than init has a living parent, and nobody
        waits who has a zombie to reap. */
    lemma Between(i: nat, j: nat)
      requires Valid() && i < |procs| && j < |procs|
      ensures i != j && procs[i].state != UNUSED && procs[j].state != UNUSED ==> procs[i].pid != procs[j].pid
      ensures procs[i].state != UNUSED ==> 0 < procs[i].pid < nextpid && procs[i].pid !in reaped
      ensures procs[i].state == RUNNING <==> exists c :: 0 <= c < |cpus| && cpus[c] == i
      ensures forall c, e :: 0 <= c < |cpus| && 0 <= e < |cpus| && cpus[c] == cpus[e] == i ==> c == e
      ensures procs[i].state in {SLEEPING, RUNNABLE, RUNNING, ZOMBIE} && i != init ==>
                && 0 <= procs[i].parent < |procs| && procs[i].parent != i
                && procs[procs[i].parent].state in {SLEEPING, RUNNABLE, RUNNING}
      ensures procs[init].state in {SLEEPING, RUNNABLE, RUNNING}
      ensures procs[i].state == SLEEPING && procs[i].chan == WaitOn(i) && procs[j].parent == i ==>
                procs[j].state != ZOMBIE
    {
      if procs[i].state == RUNNING {
        assert cpus[home[i]] == i;
      }
      if c :| 0 <= c < |cpus| && cpus[c] == i {
        assert home[cpus[c]] == c;
      }
      assert Published(procs[i]) <==> procs[i].state in {SLEEPING, RUNNABLE, RUNNING, ZOMBIE};
      assert InWait(procs, i) <==> procs[i].state == SLEEPING && procs[i].chan == WaitOn(i);
    }

    /** After userinit: the first process is ready, everything else is unused. */
    constructor (nproc: nat, ncpu: nat)
      requires nproc > 0
      ensures Valid() && |procs| == nproc && holder == -1 && nextpid == 2 && cpus == seq(ncpu, _ => -1)
      ensures procs[0] == Proc(RUNNABLE, 1, -1, NoChan, false, 1) && making == seq(nproc, _ => -1)
      ensures forall j :: 0 < j < nproc ==> procs[j] == Proc(UNUSED, 0, -1, NoChan, false, 1)
    {
      init := 0;
      procs := AtBoot(nproc);
      cpus, making, home := seq(ncpu, _ => -1), seq(nproc, _ => -1), seq(nproc, _ => -1);
      holder, nextpid, reaped := -1, 2, {};
      new;
      hide PidsOk, ParentsOk, EmbryosOk, CpusOk, WaitersOk;
      AtBootOk(nproc, cpus);
    }

    /** allocproc: the first UNUSED slot becomes an embryo with a fresh pid. -1 if none is left. */
    method AllocProc(i: nat) returns (np: int)
      requires Valid() && Current(i) && making[i] == -1
      modifies this
      ensures Valid() && holder == -1 && cpus == old(cpus) && home == old(home) && reaped == old(reaped)
      ensures np == -1 <==> forall j :: 0 <= j < |old(procs)| ==> old(procs)[j].state != UNUSED
      ensures np == -1 ==> procs == old(procs) && nextpid == old(nextpid) && making == old(making)
      ensures np != -1 ==>
                && 0 <= np < |procs| && old(procs)[np].state == UNUSED && making == old(making)[i := np]
                && (forall j :: 0 <= j < np ==> old(procs)[j].state != UNUSED)
                && procs == old(procs)[np := old(procs)[np].(state := EMBRYO, pid := old(nextpid), burst := 1)]
                && nextpid == old(nextpid) + 1
    {
      hide PidsOk, CpusOk, ParentsOk, WaitersOk;
      np := 0;
      while np < |procs| && procs[np].state != UNUSED
        invariant 0 <= np <= |procs| && unchanged(this)
        invariant forall j :: 0 <= j < np ==> procs[j].state != UNUSED
      {
        np := np + 1;
      }
      if np == |procs| {
        return -1;
      }
      ghost var ps := procs;
      EmbryoMade(ps, i, np, nextpid, reaped, init, making);
      procs := procs[np := procs[np].(state := EMBRYO, pid := nextpid, burst := 1)];
      CpusKeep(ps, procs, cpus, home);
      WaitersKeep(ps, procs);
      nextpid := nextpid + 1;
      making := making[i := np];
    }

    /** allocproc found no kernel stack, or copyuvm failed: fork gives its embryo np up. */
    method ForkFailed(i: nat, np: nat)
      requires Valid() && i < |procs| && procs[i].state == RUNNING && making[i] == np
      modifies `procs, `making
      ensures Valid() && making == old(making)[i := -1]
      ensures procs == old(procs)[np := old(procs)[np].(state := UNUSED)]
    {
      hide PidsOk, CpusOk, ParentsOk, WaitersOk;
      ghost var ps := procs;
      EmbryoDone(ps, i, ps[np].(state := UNUSED), nextpid, reaped, init, making);
      procs := procs[np := procs[np].(state := UNUSED)];
      making := making[i := -1];
      CpusKeep(ps, procs, cpus, home);
      WaitersKeep(ps, procs);
    }

    /** The end of fork: the child is i's and may be scheduled. */
    method FinishFork(i: nat, np: nat) returns (pid: nat)
      requires Valid() && Current(i) && making[i] == np
      modifies `procs, `making
      ensures Valid() && holder == -1 && making == old(making)[i := -1]
      ensures procs == old(procs)[np := old(procs)[np].(state := RUNNABLE, parent := i)]
      ensures pid == procs[np].pid
    {
      hide PidsOk, CpusOk, ParentsOk, WaitersOk;
      ghost var ps := procs;
      EmbryoDone(ps, i, ps[np].(state := RUNNABLE, parent := i), nextpid, reaped, init, making);
      pid := procs[np].pid;
      procs := procs[np := procs[np].(state := RUNNABLE, parent := i)];
      making := making[i := -1];
      CpusKeep(ps, procs, cpus, home);
      WaitersKeep(ps, procs);
    }

    /** yield: i goes back to the queue, and its CPU's scheduler holds the lock. */
    method Yield(i: nat, c: nat)
      requires Valid() && Current(i) && c < |cpus| && cpus[c] == i
      modifies `procs, `cpus, `holder
      ensures Valid() && holder == c && cpus == old(cpus)[c := -1]
      ensures procs == old(procs)[i := old(procs)[i].(state := RUNNABLE)]
    {
      Leave(i, c, procs[i].(state := RUNNABLE));
    }

    /** sleep on a channel that is not wait's own, from the point where ptable.lock is held. */
    method Sleep(i: nat, c: nat, chan: Chan)
      requires Valid() && Current(i) && c < |cpus| && cpus[c] == i && chan.Other?
      modifies `procs, `cpus, `holder
      ensures Valid() && holder == c && cpus == old(cpus)[c := -1]
      ensures procs == old(procs)[i := old(procs)[i].(state := SLEEPING, chan := chan)]
    {
      Leave(i, c, procs[i].(state := SLEEPING, chan := chan));
    }

    /** sched: process i, still alive but as p says, switches to the scheduler of its CPU. */
    method Leave(i: nat, c: nat, p: Proc)
      requires Valid() && Current(i) && c < |cpus| && cpus[c] == i
      requires p.pid == procs[i].pid && p.parent == procs[i].parent && Alive(p) && p.state != RUNNING
      requires p.state == SLEEPING && p.chan == WaitOn(i) ==>
                 forall j :: 0 <= j < |procs| ==> !(procs[j].parent == i && procs[j].state == ZOMBIE)
      modifies `procs, `cpus, `holder
      ensures Valid() && holder == c && cpus == old(cpus)[c := -1] && procs == old(procs)[i := p]
    {
      hide PidsOk, ParentsOk, EmbryosOk, CpusOk, WaitersOk;
      ghost var ps := procs;
      Settled(ps, i, p);
      OnCpu(ps, cpus, home, i, c);
      CpuFreed(ps, cpus, home, i, p);
      procs := procs[i := p];
      cpus := cpus[c := -1];
      holder := c;
      AliveKeeps(ps, procs, nextpid, reaped, init, making);
    }

    /** wakeup: every process asleep on chan becomes RUNNABLE, and nothing else changes. */
    method Wakeup(chan: Chan)
      requires Valid() && holder == -1
      modifies `procs
      ensures Valid() && |procs| == |old(procs)|
      ensures forall j :: 0 <= j < |procs| && old(procs)[j].state == SLEEPING && old(procs)[j].chan == chan ==>
                procs[j] == old(procs)[j].(state := RUNNABLE)
      ensures forall j :: 0 <= j < |procs| && !(old(procs)[j].state == SLEEPING && old(procs)[j].chan == chan) ==>
                procs[j] == old(procs)[j]
    {
      hide PidsOk, ParentsOk, EmbryosOk, CpusOk, WaitersOk, Awoken;
      ghost var ps := procs;
      procs := Wakeup1(procs, chan);
      AwokenChange(ps, chan);
      AliveKeeps(ps, procs, nextpid, reaped, init, making);
      CpusKeep(ps, procs, cpus, home);
      WaitersKeep(ps, procs);
    }

    /** kill: the first slot that holds this pid, in whatever state. A slot in use is marked exactly
        when it has the pid; when none has, a free slot may be. */
    method Kill(pid: nat) returns (r: int)
      requires Valid() && holder == -1
      modifies `procs
      ensures Valid()
      ensures r == 0 || r == -1
      ensures r == -1 <==> forall j :: 0 <= j < |old(procs)| ==> old(procs)[j].pid != pid
      ensures |procs| == |old(procs)| && (r == -1 ==> procs == old(procs))
      ensures r == 0 ==>
                exists k ::
                  && FirstWithPid(old(procs), pid, k) && procs == old(procs)[k := procs[k]] && procs[k].killed
                  && procs[k] == old(procs)[k].(killed := true, state := procs[k].state)
                  && procs[k].state == if old(procs)[k].state == SLEEPING then RUNNABLE else old(procs)[k].state
      ensures forall k :: 0 <= k < |procs| && old(procs)[k].state != UNUSED ==>
                var p := old(procs)[k];
                procs[k] == if p.pid != pid then p
                            else if p.state == SLEEPING then p.(killed := true, state := RUNNABLE)
                            else p.(killed := true)
    {
      hide PidsOk, ParentsOk, EmbryosOk, CpusOk, WaitersOk;
      ghost var ps := procs;
      var p := 0;
      while p < |procs|
        invariant 0 <= p <= |procs| && procs == ps
        invariant forall j :: 0 <= j < p ==> procs[j].pid != pid
      {
        if procs[p].pid == pid {
          procs := procs[p := procs[p].(killed := true)];
          if procs[p].state == SLEEPING {
            procs := procs[p := procs[p].(state := RUNNABLE)];
          }
          assert FirstWithPid(ps, pid, p) && procs == ps[p := Killed(ps[p])];
          OnePid(ps, p, nextpid, reaped);
          AliveKeeps(ps, procs, nextpid, reaped, init, making);
          CpusKeep(ps, procs, cpus, home);
          WaitersKeep(ps, procs);
          return 0;
        }
        p := p + 1;
      }
      return -1;
    }

    /** What kill does to a free slot: if the first free slot is the first that holds the number,
        as 0 is unless a fork failed there, the next child of anyone is born killed, with a pid that
        was never passed to kill. */
    method KillThenFork(pid: nat, i: nat, ghost k: nat) returns (r: int, child: nat)
      requires Valid() && Current(i) && making[i] == -1 && FirstFree(procs, k) && FirstWithPid(procs, pid, k)
      modifies this
      ensures Valid() && r == 0 && child > pid
      ensures procs == old(procs)[k := Proc(RUNNABLE, child, i, old(procs)[k].chan, true, 1)]
      ensures child == old(nextpid) && cpus == old(cpus)
    {
      hide PidsOk, CpusOk, ParentsOk, EmbryosOk, WaitersOk;
      PidBelow(procs, k, nextpid, reaped);
      InUse(procs, making);
      ghost var ps := procs;
      r := Kill(pid);
      assert procs == ps[k := ps[k].(killed := true)];
      assert procs[k].state == UNUSED;
      var np := AllocProc(i);
      assert np == k;
      child := FinishFork(i, np);
    }

    /** exit, from the point where ptable.lock is held. */
    method Exit(i: nat, c: nat)
      requires Valid() && Current(i) && c < |cpus| && cpus[c] == i
      requires i != init && making[i] == -1
      modifies `procs, `cpus, `holder
      ensures Valid() && holder == c && cpus == old(cpus)[c := -1]
      ensures |procs| == |old(procs)| && procs[i] == old(procs)[i].(state := ZOMBIE) && old(procs)[i].parent >= 0
      ensures forall j :: 0 <= j < |procs| ==>
                && procs[j].parent == (if old(procs)[j].parent == i then init else old(procs)[j].parent)
                && procs[j] == old(procs)[j].(parent := procs[j].parent, state := procs[j].state)
      ensures forall j :: 0 <= j < |procs| && j != i ==>
                procs[j].state ==
                  if && old(procs)[j].state == SLEEPING
                     && (|| old(procs)[j].chan == WaitOn(old(procs)[i].parent)
                         || (old(procs)[j].chan == WaitOn(init) && exists k ::
                              0 <= k < |old(procs)| && old(procs)[k].parent == i && old(procs)[k].state == ZOMBIE))
                  then RUNNABLE else old(procs)[j].state
    {
      hide PidsOk, ParentsOk, EmbryosOk, CpusOk, WaitersOk, Awoken, Orphaned;
      ghost var ps := procs;
      OnCpu(ps, cpus, home, i, c);
      ExitKeeps(ps, i, nextpid, reaped, init, making);
      NotOwnParent(ps, i, init);
      var r := Wakeup1(procs, WaitOn(procs[i].parent));
      r := Orphan(r, i, init);
      procs := r[i := r[i].(state := ZOMBIE)];
      CpuFreed(ps, cpus, home, i, ps[i].(state := ZOMBIE));
      cpus := cpus[c := -1];
      holder := c;
      CpusKeep(ps[i := ps[i].(state := ZOMBIE)], procs, cpus, home);
      assert procs == Exited(ps, i, init);
      hide Exited, Rouses;
      forall j: nat | j < |ps|
        ensures procs[j] == ps[j].(parent := if ps[j].parent == i then init else ps[j].parent,
                                   state := if j == i then ZOMBIE
                                            else if ps[j].state == SLEEPING && Rouses(ps, i, init, ps[j].chan)
                                            then RUNNABLE else ps[j].state)
      {
        ExitedIs(ps, i, init, j);
      }
    }

    /** One pass of wait's loop. Reaped says which slot; a pid is never returned twice. */
    method Wait(i: nat, c: nat) returns (r: Waited)
      requires Valid() && Current(i) && c < |cpus| && cpus[c] == i && making[i] == -1
      modifies `procs, `cpus, `holder, `reaped
      ensures Valid() && i < |old(procs)|
      ensures r.Child? <==>
                exists j :: 0 <= j < |old(procs)| && old(procs)[j].parent == i && old(procs)[j].state == ZOMBIE
      ensures r.Child? ==>
                && r.slot < |old(procs)| && old(procs)[r.slot].parent == i && old(procs)[r.slot].state == ZOMBIE
                && (forall j :: 0 <= j < r.slot ==> !(old(procs)[j].parent == i && old(procs)[j].state == ZOMBIE))
                && r.pid == old(procs)[r.slot].pid && r.pid !in old(reaped) && reaped == old(reaped) + {r.pid}
                && procs == old(procs)[r.slot := procs[r.slot]]
                && procs[r.slot].state == UNUSED && procs[r.slot].pid == 0 && procs[r.slot].parent == -1
                && !procs[r.slot].killed
                && procs[r.slot].chan == old(procs)[r.slot].chan && procs[r.slot].burst == old(procs)[r.slot].burst
                && holder == -1 && cpus == old(cpus)
      ensures !r.Child? ==> reaped == old(reaped)
      ensures r.Failed? ==>
                && procs == old(procs) && holder == -1 && cpus == old(cpus)
                && (old(procs)[i].killed || forall j :: 0 <= j < |old(procs)| ==> old(procs)[j].parent != i)
      ensures r.Slept? ==>
                && holder == c && cpus == old(cpus)[c := -1] && !old(procs)[i].killed
                && procs == old(procs)[i := old(procs)[i].(state := SLEEPING, chan := WaitOn(i))]
                && exists j :: 0 <= j < |old(procs)| && old(procs)[j].parent == i
    {
      hide PidsOk, ParentsOk, EmbryosOk, CpusOk, WaitersOk;
      ghost var ps := procs;
      var haveKids := false;
      var p := 0;
      while p < |procs|
        invariant 0 <= p <= |procs| && unchanged(this)
        invariant haveKids <==> exists j :: 0 <= j < p && procs[j].parent == i
        invariant forall j :: 0 <= j < p ==> !(procs[j].parent == i && procs[j].state == ZOMBIE)
      {
        if procs[p].parent == i {
          haveKids := true;
          if procs[p].state == ZOMBIE {
            r := Child(p, procs[p].pid);
            Reap(ps, p, nextpid, reaped, init, making);
            procs := procs[p := procs[p].(pid := 0, parent := -1, killed := false, state := UNUSED)];
            reaped := reaped + {r.pid};
            CpusKeep(ps, procs, cpus, home);
            return;
          }
        }
        p := p + 1;
      }
      if !haveKids || procs[i].killed {
        return Failed;
      }
      Leave(i, c, procs[i].(chan := WaitOn(i), state := SLEEPING));
      return Slept;
    }

    /** The scheduler of an idle CPU takes the lock. */
    method SchedAcquire(c: nat)
      requires Valid() && holder == -1 && c < |cpus| && cpus[c] == -1
      modifies `holder
      ensures Valid() && holder == c
    {
      holder := c;
    }

    /** One turn of the scheduler's loop that finds work. The chosen process releases the lock. */
    method Dispatch(c: nat) returns (next: nat)
      requires Valid() && holder == c && exists k :: Ready(procs, k)
      modifies `procs, `cpus, `holder, `home
      ensures Valid() && holder == -1 && cpus == old(cpus)[c := next]
      ensures next < |old(procs)| && old(procs)[next].state == RUNNABLE
      ensures IsLeast(old(procs), |old(procs)|, next) <==> !SentinelHides(old(procs))
      ensures (forall j :: 0 <= j < |procs| && old(procs)[j].state == RUNNABLE ==> old(procs)[j].burst > -1) ==>
                forall j :: 0 <= j < |procs| && old(procs)[j].state == RUNNABLE ==>
                  || old(procs)[next].burst < old(procs)[j].burst
                  || (old(procs)[next].burst == old(procs)[j].burst && next <= j)
      ensures procs == old(procs)[next := old(procs)[next].(state := RUNNING, chan := NoChan)]
    {
      hide PidsOk, ParentsOk, EmbryosOk, CpusOk, WaitersOk, SentinelHides;
      ghost var ps := procs;
      var n := Pick(procs);
      next := n;
      CpuTaken(ps, cpus, home, next, c, ps[next].(state := RUNNING, chan := NoChan));
      cpus := cpus[c := next];
      procs := procs[next := procs[next].(state := RUNNING, chan := NoChan)];
      home := home[next := c];
      holder := -1;
      AliveKeeps(ps, procs, nextpid, reaped, init, making);
      WaitersKeep(ps, procs);
    }

    /** The scheduler found nothing more to run. */
    method SchedRelease(c: nat)
      requires Valid() && holder == c
      modifies `holder
      ensures Valid() && holder == -1
    {
      holder := -1;
    }

    /** setBurstTime: any int, without the lock. */
    method SetBurst(i: nat, n: int)
      requires Valid() && i < |procs| && procs[i].state == RUNNING
      modifies `procs
      ensures Valid() && procs == old(procs)[i := old(procs)[i].(burst := n)]
    {
      hide PidsOk, ParentsOk, EmbryosOk, CpusOk, WaitersOk;
      ghost var ps := procs;
      procs := procs[i := procs[i].(burst := n)];
      AliveKeeps(ps, procs, nextpid, reaped, init, making);
      CpusKeep(ps, procs, cpus, home);
      WaitersKeep(ps, procs);
    }
  }

  /** From boot: init kills process 0, which does not exist, and forks. The child is killed. */
  method BornKilled() returns (t: ProcTable)
    ensures fresh(t) && t.Valid() && t.procs[0].state == RUNNING && |t.procs| == 64
    ensures t.procs[1] == Proc(RUNNABLE, 2, 0, NoChan, true, 1)
  {
    hide PidsOk, ParentsOk, EmbryosOk, CpusOk, WaitersOk, SentinelHides, IsLeast;
    t := new ProcTable(64, 1);
    assert t.cpus[0] == -1 && Ready(t.procs, 0);
    t.SchedAcquire(0);
    var i := t.Dispatch(0);
    var r, child := t.KillThenFork(0, 0, 1);
  }
}
