/** sleeplock.c over sleep and wakeup of proc.c, as a state machine of any number of processes.
    One step is what a process does between two operations on a spin lock; the spin locks are
    lk->lk (here lk) and ptable.lock (here pt), and every interleaving is allowed. */
module SleepLock {
  import opened Common

  /** Where a process is. Those after Falling are in sleep(); the Rel ones in releasesleep. */
  datatype Pc =
    | Idle         // does not use the lock
    | WantLk       // acquiresleep: acquire(&lk->lk), also when coming back from sleep
    | Test         // while (lk->locked), lk held
    | Unlock       // has set locked and pid; release(&lk->lk)
    | Holding
    | WantPt       // sleep: acquire(&ptable.lock), lk still held
    | HavePt       // sleep: release(lk), both held
    | Falling      // sleep: about to become SLEEPING, only pt held
    | Asleep       // SLEEPING on the lock
    | Runnable     // made RUNNABLE by wakeup or kill
    | Waking       // back from sched with pt held; release(&ptable.lock)
    | RelWantLk
    | RelSet       // locked = 0, pid = 0
    | RelWantPt    // wakeup: acquire(&ptable.lock), lk held
    | RelWake      // wakeup1, both held
    | RelUnlock    // release(&lk->lk)

  datatype State = State(locked: bool, pid: nat, lk: Option<nat>, pt: Option<nat>, pc: map<nat, Pc>)

  /** Run(p): the next step of p. Kill(p): kill() makes p runnable if it sleeps. Other(q): a
      process that does not use this lock takes ptable.lock, or gives it back. */
  datatype Event = Run(p: nat) | Kill(p: nat) | Other(q: nat)

  predicate Can(s: State, e: Event) {
    match e
    case Run(p) =>
      p in s.pc &&
      (match s.pc[p]
       case WantLk => s.lk.None?
       case RelWantLk => s.lk.None?
       case WantPt => s.pt.None?
       case Runnable => s.pt.None?
       case RelWantPt => s.pt.None?
       case Asleep => false
       case _ => true)
    case Kill(p) => p in s.pc && s.pt.None?
    case Other(q) => q !in s.pc && (s.pt.None? || s.pt == Some(q))
  }

  function Goto(s: State, p: nat, c: Pc): State {
    s.(pc := s.pc[p := c])
  }

  /** wakeup1: every process asleep on the lock becomes runnable. */
  function WakeAll(pc: map<nat, Pc>): map<nat, Pc> {
    map p | p in pc :: if pc[p] == Asleep then Runnable else pc[p]
  }

  function RunStep(s: State, p: nat): State
    requires Can(s, Run(p))
  {
    match s.pc[p]
    case Idle => Goto(s, p, WantLk)
    case WantLk => Goto(s, p, Test).(lk := Some(p))
    case Test => if s.locked then Goto(s, p, WantPt) else Goto(s, p, Unlock).(locked := true, pid := p)
    case Unlock => Goto(s, p, Holding).(lk := None)
    case Holding => Goto(s, p, RelWantLk)
    case WantPt => Goto(s, p, HavePt).(pt := Some(p))
    case HavePt => Goto(s, p, Falling).(lk := None)
    case Falling => Goto(s, p, Asleep).(pt := None)
    case Runnable => Goto(s, p, Waking).(pt := Some(p))
    case Waking => Goto(s, p, WantLk).(pt := None)
    case RelWantLk => Goto(s, p, RelSet).(lk := Some(p))
    case RelSet => Goto(s, p, RelWantPt).(locked := false, pid := 0)
    case RelWantPt => Goto(s, p, RelWake).(pt := Some(p))
    case RelWake => s.(pc := WakeAll(s.pc[p := RelUnlock]), pt := None)
    case RelUnlock => Goto(s, p, Idle).(lk := None)
  }

  function Do(s: State, e: Event): State
    requires Can(s, e)
  {
    match e
    case Run(p) => RunStep(s, p)
    case Kill(p) => if s.pc[p] == Asleep then Goto(s, p, Runnable) else s
    case Other(q) => if s.pt.None? then s.(pt := Some(q)) else s.(pt := None)
  }

  predicate Init(s: State) {
    !s.locked && s.lk.None? && s.pt.None? && forall p :: p in s.pc ==> s.pc[p] == Idle
  }

  predicate ValidRun(s: State, es: seq<Event>)
    decreases |es|, 0
  {
    es == [] || (ValidRun(s, es[..|es| - 1]) && Can(Final(s, es[..|es| - 1]), es[|es| - 1]))
  }

  function Final(s: State, es: seq<Event>): State
    requires ValidRun(s, es)
    decreases |es|, 1
  {
    if es == [] then s else Do(Final(s, es[..|es| - 1]), es[|es| - 1])
  }

  // ----- Invariant -----

  predicate HoldsLk(c: Pc) {
    c.Test? || c.Unlock? || c.WantPt? || c.HavePt? || c.RelSet? || c.RelWantPt? || c.RelWake? || c.RelUnlock?
  }

  predicate HoldsPt(c: Pc) {
    c.HavePt? || c.Falling? || c.Waking? || c.RelWake?
  }

  /** Between the assignments locked = 1 and locked = 0. */
  predicate Owns(c: Pc) {
    c.Unlock? || c.Holding? || c.RelWantLk? || c.RelSet?
  }

  /** Some process holds lk and is on its way to wake every sleeper. */
  predicate WakeDue(s: State) {
    s.lk.Some? && s.lk.value in s.pc && (s.pc[s.lk.value].RelWantPt? || s.pc[s.lk.value].RelWake?)
  }

  predicate ProcOk(s: State, p: nat)
    requires p in s.pc
  {
    && (HoldsLk(s.pc[p]) <==> s.lk == Some(p))
    && (HoldsPt(s.pc[p]) <==> s.pt == Some(p))
    && (Owns(s.pc[p]) <==> s.locked && s.pid == p)
    && (s.pc[p].WantPt? || s.pc[p].HavePt? ==> s.locked)
    && (s.pc[p].Falling? || s.pc[p].Asleep? ==> s.locked || WakeDue(s))
  }

  predicate Inv(s: State) {
    && (s.lk.Some? ==> s.lk.value in s.pc)
    && forall p :: p in s.pc ==> ProcOk(s, p)
  }

  /** locked says which process is the owner, and that there is one. */
  predicate OwnerExists(s: State) {
    s.locked ==> s.pid in s.pc && Owns(s.pc[s.pid])
  }

  lemma InitInv(s: State)
    requires Init(s)
    ensures Inv(s) && OwnerExists(s)
  {
  }

  lemma RunSelf(s: State, p: nat)
    requires (s.lk.Some? ==> s.lk.value in s.pc && ProcOk(s, s.lk.value)) && Can(s, Run(p)) && ProcOk(s, p)
    ensures p in RunStep(s, p).pc && ProcOk(RunStep(s, p), p)
  {
  }

  lemma RunOther(s: State, p: nat, q: nat)
    requires (s.lk.Some? ==> s.lk.value in s.pc && ProcOk(s, s.lk.value)) && Can(s, Run(p))
    requires q in s.pc && q != p && ProcOk(s, p) && ProcOk(s, q)
    ensures q in RunStep(s, p).pc && ProcOk(RunStep(s, p), q)
  {
  }

  /** A step of p keeps what the invariant says of p and of every other process q. */
  lemma RunKeeps(s: State, p: nat, q: nat)
    requires (s.lk.Some? ==> s.lk.value in s.pc && ProcOk(s, s.lk.value)) && Can(s, Run(p))
    requires q in s.pc && ProcOk(s, p) && ProcOk(s, q)
    ensures q in RunStep(s, p).pc && ProcOk(RunStep(s, p), q)
  {
    hide RunStep, ProcOk;
    if q == p {
      RunSelf(s, p);
    } else {
      RunOther(s, p, q);
    }
  }

  lemma StepInv(s: State, e: Event)
    requires Inv(s) && OwnerExists(s) && Can(s, e)
    ensures Inv(Do(s, e)) && OwnerExists(Do(s, e))
  {
    if e.Run? {
      hide ProcOk;
      forall q | q in s.pc
        ensures q in RunStep(s, e.p).pc && ProcOk(RunStep(s, e.p), q)
      {
        RunKeeps(s, e.p, q);
      }
      RunOwner(s, e.p);
    }
  }

  lemma RunOwner(s: State, p: nat)
    requires OwnerExists(s) && Can(s, Run(p)) && ProcOk(s, p)
    ensures OwnerExists(RunStep(s, p))
    ensures var s' := RunStep(s, p); s'.pc.Keys == s.pc.Keys && (s'.lk.Some? ==> s'.lk == s.lk || s'.lk.value == p)
  {
  }

  lemma {:induction false} RunInv(s: State, es: seq<Event>)
    requires Init(s) && ValidRun(s, es)
    ensures Inv(Final(s, es)) && OwnerExists(Final(s, es))
    decreases |es|
  {
    if es != [] {
      RunInv(s, es[..|es| - 1]);
      StepInv(Final(s, es[..|es| - 1]), es[|es| - 1]);
    } else {
      InitInv(s);
    }
  }

  /** In every run, at most one process is between acquiresleep and releasesleep. */
  lemma MutualExclusion(s: State, es: seq<Event>, p: nat, q: nat)
    requires Init(s) && ValidRun(s, es)
    requires p in Final(s, es).pc && Final(s, es).pc[p] in {Unlock, Holding, RelWantLk, RelSet}
    requires q in Final(s, es).pc && Final(s, es).pc[q] in {Unlock, Holding, RelWantLk, RelSet}
    ensures p == q && Final(s, es).locked && Final(s, es).pid == p
  {
    RunInv(s, es);
  }

  /** In every run, whenever the inner lock is free and the sleep lock is not held, nobody is
      asleep on it or between release(lk) and SLEEPING: no wakeup is lost. */
  lemma NoLostWakeup(s: State, es: seq<Event>, p: nat)
    requires Init(s) && ValidRun(s, es) && p in Final(s, es).pc
    ensures var f := Final(s, es);
            !f.locked && f.lk.None? ==> !f.pc[p].Asleep? && !f.pc[p].Falling?
  {
    RunInv(s, es);
  }

  /** Somebody else always stands to wake a sleeper: the owner, or one about to call wakeup. */
  lemma SleeperHasWaker(s: State, es: seq<Event>, p: nat)
    requires Init(s) && ValidRun(s, es) && p in Final(s, es).pc && Final(s, es).pc[p].Asleep?
    ensures var f := Final(s, es);
            exists q :: q in f.pc && q != p && f.pc[q] in {Unlock, Holding, RelWantLk, RelSet, RelWantPt, RelWake}
  {
    RunInv(s, es);
    var f := Final(s, es);
    var q := if f.locked then f.pid else f.lk.value;
    assert q in f.pc && f.pc[q] in {Unlock, Holding, RelWantLk, RelSet, RelWantPt, RelWake};
  }

  /** The spin locks cannot deadlock: if some process is waiting for one, some step can be taken
      by another than the sleepers. */
  lemma SomeoneCanStep(s: State, es: seq<Event>, p: nat)
    requires Init(s) && ValidRun(s, es) && p in Final(s, es).pc && !Final(s, es).pc[p].Asleep?
    ensures var f := Final(s, es);
            (exists e :: Can(f, e) && !e.Kill? && (e.Run? || f.pt == Some(e.q)))
  {
    RunInv(s, es);
    var f := Final(s, es);
    if !Can(f, Run(p)) {
      if f.pt.Some? {
        if f.pt.value in f.pc {
          assert Can(f, Run(f.pt.value));
        } else {
          assert Can(f, Other(f.pt.value));
        }
      } else {
        assert Can(f, Run(f.lk.value));
      }
    }
  }

  /** The state after n steps of p alone. */
  function Steps(s: State, p: nat, n: nat): Option<State> {
    if n == 0 then Some(s)
    else
      var t := Steps(s, p, n - 1);
      if t.Some? && Can(t.value, Run(p)) then Some(RunStep(t.value, p)) else None
  }

  lemma NoSteps(s: State, p: nat)
    ensures Steps(s, p, 0) == Some(s)
  {
  }

  /** p is at c and no other sleeps. */
  function Roused(pc: map<nat, Pc>, p: nat, c: Pc): map<nat, Pc> {
    map q | q in pc :: if q == p then c else if pc[q] == Asleep then Runnable else pc[q]
  }

  /** The steps of acquiresleep and releasesleep one by one, where no spin lock is in the way. */
  lemma StepIs(t: State, p: nat)
    requires p in t.pc && (t.lk.None? || t.lk == Some(p)) && (t.pt.None? || t.pt == Some(p))
    ensures t.pc[p] == WantLk && t.lk.None? ==>
              Can(t, Run(p)) && RunStep(t, p) == t.(lk := Some(p), pc := t.pc[p := Test])
    ensures t.pc[p] == Test && !t.locked ==>
              Can(t, Run(p)) && RunStep(t, p) == t.(locked := true, pid := p, pc := t.pc[p := Unlock])
    ensures t.pc[p] == Test && t.locked ==> Can(t, Run(p)) && RunStep(t, p) == t.(pc := t.pc[p := WantPt])
    ensures t.pc[p] == Unlock ==> Can(t, Run(p)) && RunStep(t, p) == t.(lk := None, pc := t.pc[p := Holding])
    ensures t.pc[p] == WantPt && t.pt.None? ==>
              Can(t, Run(p)) && RunStep(t, p) == t.(pt := Some(p), pc := t.pc[p := HavePt])
    ensures t.pc[p] == HavePt ==> Can(t, Run(p)) && RunStep(t, p) == t.(lk := None, pc := t.pc[p := Falling])
    ensures t.pc[p] == Falling ==> Can(t, Run(p)) && RunStep(t, p) == t.(pt := None, pc := t.pc[p := Asleep])
    ensures t.pc[p] == Asleep ==> !Can(t, Run(p))
  {
  }

  lemma ReleaseIs(t: State, p: nat)
    requires p in t.pc && (t.lk.None? || t.lk == Some(p)) && (t.pt.None? || t.pt == Some(p))
    ensures t.pc[p] == Holding ==> Can(t, Run(p)) && RunStep(t, p) == t.(pc := t.pc[p := RelWantLk])
    ensures t.pc[p] == RelWantLk && t.lk.None? ==>
              Can(t, Run(p)) && RunStep(t, p) == t.(lk := Some(p), pc := t.pc[p := RelSet])
    ensures t.pc[p] == RelSet ==>
              Can(t, Run(p)) && RunStep(t, p) == t.(locked := false, pid := 0, pc := t.pc[p := RelWantPt])
    ensures t.pc[p] == RelWantPt && t.pt.None? ==>
              Can(t, Run(p)) && RunStep(t, p) == t.(pt := Some(p), pc := t.pc[p := RelWake])
    ensures t.pc[p] == RelWake ==>
              && Can(t, Run(p))
              && RunStep(t, p) == t.(pt := None, pc := Roused(t.pc, p, RelUnlock))
    ensures t.pc[p] == RelUnlock ==> Can(t, Run(p)) && RunStep(t, p) == t.(lk := None, pc := t.pc[p := Idle])
  {
    if t.pc[p] == RelWake {
      assert WakeAll(t.pc[p := RelUnlock]) == Roused(t.pc, p, RelUnlock);
    }
  }

  /** One step further. */
  lemma Onward(s: State, p: nat, n: nat, t: State)
    requires Steps(s, p, n) == Some(t) && Can(t, Run(p))
    ensures Steps(s, p, n + 1) == Some(RunStep(t, p))
  {
  }

  /** acquiresleep of a lock that nobody holds: three steps, and p has it. */
  lemma AcquireFree(s: State, p: nat)
    requires p in s.pc && s.pc[p] == WantLk && s.lk.None? && s.pt.None? && !s.locked
    ensures Steps(s, p, 3) == Some(s.(locked := true, pid := p, pc := s.pc[p := Holding]))
  {
    hide Steps, RunStep, Can;
    NoSteps(s, p);
    StepIs(s, p);
    Onward(s, p, 0, s);
    var a := RunStep(s, p);
    StepIs(a, p);
    Onward(s, p, 1, a);
    var b := RunStep(a, p);
    StepIs(b, p);
    Onward(s, p, 2, b);
    assert b.pc[p := Holding] == s.pc[p := Holding];
  }

  /** acquiresleep of a lock that is held: p is asleep after five steps, and has let both spin locks go. */
  lemma AcquireHeld(s: State, p: nat)
    requires p in s.pc && s.pc[p] == WantLk && s.lk.None? && s.pt.None? && s.locked
    ensures Steps(s, p, 5) == Some(s.(pc := s.pc[p := Asleep])) && !Can(s.(pc := s.pc[p := Asleep]), Run(p))
  {
    hide Steps, RunStep, Can;
    NoSteps(s, p);
    StepIs(s, p);
    Onward(s, p, 0, s);
    var a := RunStep(s, p);
    StepIs(a, p);
    Onward(s, p, 1, a);
    var b := RunStep(a, p);
    StepIs(b, p);
    Onward(s, p, 2, b);
    var c := RunStep(b, p);
    StepIs(c, p);
    Onward(s, p, 3, c);
    var d := RunStep(c, p);
    StepIs(d, p);
    Onward(s, p, 4, d);
    assert d.pc[p := Asleep] == s.pc[p := Asleep];
    StepIs(s.(pc := s.pc[p := Asleep]), p);
  }

  /** releasesleep: six steps, after which the lock is free and every sleeper can run again. */
  lemma Release(s: State, p: nat)
    requires p in s.pc && s.pc[p] == Holding && s.lk.None? && s.pt.None?
    ensures Steps(s, p, 6) == Some(s.(locked := false, pid := 0, pc := Roused(s.pc, p, Idle)))
  {
    hide Steps, RunStep, Can;
    NoSteps(s, p);
    ReleaseIs(s, p);
    Onward(s, p, 0, s);
    var a := RunStep(s, p);
    ReleaseIs(a, p);
    Onward(s, p, 1, a);
    var b := RunStep(a, p);
    ReleaseIs(b, p);
    Onward(s, p, 2, b);
    var c := RunStep(b, p);
    ReleaseIs(c, p);
    Onward(s, p, 3, c);
    var d := RunStep(c, p);
    ReleaseIs(d, p);
    Onward(s, p, 4, d);
    var e := RunStep(d, p);
    ReleaseIs(e, p);
    Onward(s, p, 5, e);
    assert e.pc[p := Idle] == Roused(s.pc, p, Idle);
  }
}
