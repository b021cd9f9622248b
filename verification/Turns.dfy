// thread/thread.c schedule, thread_block, thread_unblock and thread_yield, device/timer.c: who runs next, and for how
// many ticks; thread/sync.c: whom sema_up wakes, and how often a lock was taken.

module Turns {
  import opened IntrusiveLists
  import opened Threads
  import opened Sync

  // ---------------------------------------------------------------- one change of the scheduler

  /** Who wants the processor when schedule is called, in order; the idle task only when nobody else does. */
  ghost function Queue(c: Cpu): (q: seq<Tid>)
    requires Typed(c)
    ensures q != []
  {
    var q := c.ready + if c.status[c.cur] == Running then [c.cur] else [];
    if q == [] then [c.idle] else q
  }

  /**
   * What a schedule does: the first of the queue runs, the others keep their order; a task that was still running has
   * a full slice again, and nobody else's slice changes.
   */
  ghost predicate Scheduled(c: Cpu, d: Cpu) {
    && Typed(c) && Typed(d) && d.cur == Queue(c)[0] && d.ready == Queue(c)[1..]
    && d.idle == c.idle && d.priority == c.priority && d.status.Keys == c.status.Keys
    && (forall t :: t in c.status ==>
          d.ticks[t] == if t == c.cur && c.status[t] == Running then c.priority[t] else c.ticks[t])
    && (forall t :: t in c.status ==>
          d.status[t] == if t == d.cur then Running
                         else if t == c.cur && c.status[t] == Running then Ready
                         else c.status[t])
  }

  lemma SlicePutBack(c: Cpu)
    requires Typed(c) && c.status[c.cur] == Running
    ensures PutBack(c).ready != [] && Scheduled(c, Dispatch(PutBack(c)))
  {
    var a := PutBack(c);
    assert a.ready == Queue(c) && a.idle == c.idle && a.priority == c.priority;
    assert Dispatch(a).status == a.status[Queue(c)[0] := Running] && Dispatch(a).ticks == a.ticks;
  }

  lemma NextTaken(c: Cpu)
    requires Typed(c) && c.status[c.cur] != Running && c.ready != []
    ensures PutBack(c) == c && Scheduled(c, Dispatch(c))
  {
    assert c.ready + [] == c.ready;
  }

  lemma IdleTaken(c: Cpu)
    requires Typed(c) && c.status[c.cur] != Running && c.ready == []
    ensures PutBack(c) == c
    ensures Unblock(c, c.idle).Ok? ==> Scheduled(c, Dispatch(Unblock(c, c.idle).value))
  {
    assert [c.idle] + [] == [c.idle];
  }

  lemma ScheduleExactly(c: Cpu)
    requires Queued(c)
    ensures Schedule(c).Ok? && Scheduled(c, Schedule(c).value)
  {
    hide Schedule, Queued, Scheduled, Dispatch, PutBack, Unblock;
    QueuedTyped(c);
    ScheduleSteps(c);
    if c.status[c.cur] == Running {
      SlicePutBack(c);
    } else if c.ready != [] {
      NextTaken(c);
    } else {
      IdleTaken(c);
    }
  }

  /** A timer tick: one less, or at 0 a schedule that refills the slice of the task that used it up. */
  lemma TimerExactly(c: Cpu)
    requires SchedInv(c)
    ensures TimerTick(c).Ok?
    ensures var d := TimerTick(c).value;
            if c.ticks[c.cur] > 0 then d == c.(ticks := c.ticks[c.cur := c.ticks[c.cur] - 1])
            else
              && d.cur == (c.ready + [c.cur])[0] && d.ready == (c.ready + [c.cur])[1..]
              && c.cur in d.ticks && d.ticks[c.cur] == c.priority[c.cur]
              && forall t :: t in c.status && t != c.cur ==> t in d.ticks && d.ticks[t] == c.ticks[t]
  {
    hide Schedule;
    CurrentFree(c);
    ScheduleExactly(c);
  }

  /** thread_block: the task sleeps in the way it asked for, the next one runs, and no slice changes. */
  lemma BlockExactly(c: Cpu, stat: Status)
    requires SchedInv(c) && Asleep(stat)
    ensures Block(c, stat).Ok?
    ensures var d := Block(c, stat).value;
            && d.cur == (c.ready + [c.idle])[0] && d.ready == c.ready[if c.ready == [] then 0 else 1..]
            && d.ticks == c.ticks && d.priority == c.priority && d.status.Keys == c.status.Keys
            && c.cur in d.status && (d.cur != c.cur ==> d.status[c.cur] == stat)
  {
    hide Schedule, SchedInv, Queued;
    CurrentFree(c);
    BlockSafe(c, stat);
    ScheduleExactly(c.(status := c.status[c.cur := stat]));
    var d := Block(c, stat).value;
    assert d.ticks == c.ticks;
  }

  /** thread_yield: the task goes behind all the others with what is left of its slice. */
  lemma YieldExactly(c: Cpu)
    requires SchedInv(c)
    ensures Yield(c).Ok?
    ensures var d := Yield(c).value;
            && d.cur == (c.ready + [c.cur])[0] && d.ready == (c.ready + [c.cur])[1..]
            && d.ticks == c.ticks && d.priority == c.priority && d.status.Keys == c.status.Keys
  {
    hide Schedule, SchedInv, Queued;
    CurrentFree(c);
    YieldQueued(c);
    YieldSafe(c);
    ScheduleExactly(c.(ready := c.ready + [c.cur], status := c.status[c.cur := Ready]));
    var d := Yield(c).value;
    assert d.ticks == c.ticks;
  }

  /** thread_unblock puts the task in front: whatever makes the current one leave, the woken one is next. */
  lemma WokenNext(c: Cpu, t: Tid, stat: Status)
    requires SchedInv(c) && t in c.status && Asleep(c.status[t]) && Asleep(stat)
    ensures Unblock(c, t).Ok?
    ensures var d := Unblock(c, t).value;
            && d.cur == c.cur && d.ticks == c.ticks && d.priority == c.priority && d.idle == c.idle
            && Block(d, stat).Ok? && Block(d, stat).value.cur == t && Block(d, stat).value.ready == c.ready
            && Yield(d).Ok? && Yield(d).value.cur == t && Yield(d).value.ready == c.ready + [c.cur]
            && (c.ticks[c.cur] == 0 ==> TimerTick(d).Ok? && TimerTick(d).value.cur == t
                                        && TimerTick(d).value.ready == c.ready + [c.cur])
  {
    UnblockSafe(c, t);
    var d := Unblock(c, t).value;
    assert d.ready == [t] + c.ready;
    assert d.ready + [d.cur] == [t] + (c.ready + [c.cur]);
    hide Unblock, Block, Yield, TimerTick, SchedInv, Queued;
    BlockExactly(d, stat);
    YieldExactly(d);
    TimerExactly(d);
  }

  // ---------------------------------------------------------------- one step of the whole system

  /** Who is woken by a step that unblocks. */
  ghost function Woken(s: State, a: Action): Tid
    requires Unblocks(s, a)
  {
    match a
    case Wake(w) => w
    case Intr(c) => s.sync.sems(DiskDone(c)).waiters[0]
    case _ => s.sync.sems(OfLock(s.sync.pc(s.cpu.cur).l)).waiters[0]
  }

  /** A step that unblocks puts the woken task in front of the ready list and leaves the current one running. */
  lemma WakesFront(s: State, a: Action, r: State)
    requires Inv(s) && Known(s) && Enabled(s, a) && Step(s, a) == Ok(r) && Unblocks(s, a)
    ensures Woken(s, a) in s.cpu.status && Typed(s.cpu) && Unblock(s.cpu, Woken(s, a)) == Ok(r.cpu)
  {
    hide Inv, Unblock, SchedInv;
  }

  lemma UnblockFront(c: Cpu, w: Tid, d: Cpu)
    requires Typed(c) && w in c.status && Unblock(c, w) == Ok(d)
    ensures d.ready == [w] + c.ready && d.cur == c.cur && d.ticks == c.ticks && d.priority == c.priority
    ensures d.status == c.status[w := Ready] && d.idle == c.idle
  {
  }

  /** What a step may do to the scheduler. */
  lemma CpuSteps(s: State, a: Action, r: State)
    requires Inv(s) && Known(s) && Enabled(s, a) && Step(s, a) == Ok(r)
    ensures Typed(s.cpu)
    ensures || r.cpu == s.cpu || (!Unblocks(s, a) && CpuMove(s.cpu, a, r.cpu))
            || (Unblocks(s, a) && Woken(s, a) in s.cpu.status && Unblock(s.cpu, Woken(s, a)) == Ok(r.cpu))
  {
    hide Inv, Unblock, SchedInv, Enabled, Step, Unblocks, CpuMove;
    if Unblocks(s, a) {
      WakesFront(s, a, r);
    } else if r.cpu != s.cpu {
      CpuChange(s, a, r);
    }
  }

  /**
   * Slices change in one way only: a timer tick takes one off the current task's, or refills it when nothing is left.
   * Priorities never change.
   */
  ghost predicate SlicesStep(c: Cpu, a: Action, d: Cpu)
    requires Typed(c)
  {
    && Typed(d)
    && (forall t :: t in c.status ==>
          && t in d.status && d.priority[t] == c.priority[t]
          && d.ticks[t] == if !(a.Timer? && t == c.cur) then c.ticks[t]
                           else if c.ticks[t] == 0 then c.priority[t] else c.ticks[t] - 1)
    && (a.Spawn? && a.tid !in c.status ==> a.tid in d.status && d.ticks[a.tid] == d.priority[a.tid] == a.prio)
  }

  lemma MoveSlices(c: Cpu, a: Action, d: Cpu)
    requires SchedInv(c) && CpuMove(c, a, d)
    ensures SlicesStep(c, a, d)
  {
    hide Block, Yield, TimerTick, Queued;
    match a {
      case Timer => TimerSlices(c, d);
      case GiveUp => YieldExactly(c);
      case Sleep(stat) => BlockSlices(c, stat, d);
      case Go => BlockSlices(c, Blocked, d);
      case _ =>
    }
  }

  lemma TimerSlices(c: Cpu, d: Cpu)
    requires SchedInv(c) && TimerTick(c) == Ok(d)
    ensures SlicesStep(c, Timer, d)
  {
    hide Schedule, Queued, Scheduled;
    CurrentFree(c);
    if c.ticks[c.cur] == 0 {
      ScheduleExactly(c);
      ScheduledSlices(c, d);
    }
  }

  lemma ScheduledSlices(c: Cpu, d: Cpu)
    requires Scheduled(c, d)
    ensures Typed(c) && Typed(d) && d.priority == c.priority && d.status.Keys == c.status.Keys
    ensures forall t :: t in c.status ==>
              d.ticks[t] == if t == c.cur && c.status[t] == Running then c.priority[t] else c.ticks[t]
  {
  }

  lemma BlockSlices(c: Cpu, stat: Status, d: Cpu)
    requires SchedInv(c) && Block(c, stat) == Ok(d)
    ensures Typed(c) && Typed(d) && d.ticks == c.ticks && d.priority == c.priority && d.status.Keys == c.status.Keys
  {
    hide Schedule, SchedInv, Queued;
    CurrentFree(c);
    BlockExactly(c, stat);
  }

  lemma StepSlices(s: State, a: Action, r: State)
    requires Inv(s) && Known(s) && Enabled(s, a) && Step(s, a) == Ok(r)
    ensures Typed(s.cpu) && SlicesStep(s.cpu, a, r.cpu)
  {
    hide SyncInv, SchedInv, Links, Exists, Step, Enabled, Unblocks, CpuMove, Unblock, Known;
    KnownTyped(s);
    CpuSteps(s, a, r);
    if r.cpu == s.cpu {
      CpuStill(s, a, r);
    } else if Unblocks(s, a) {
      UnblockFront(s.cpu, Woken(s, a), r.cpu);
      NotTimer(s, a);
      UnblockTyped(s.cpu, Woken(s, a), r.cpu);
    } else {
      MoveSlices(s.cpu, a, r.cpu);
    }
  }

  lemma KnownTyped(s: State)
    requires Known(s)
    ensures Typed(s.cpu)
  {
  }

  lemma UnblockTyped(c: Cpu, w: Tid, d: Cpu)
    requires Typed(c) && w in c.status && Unblock(c, w) == Ok(d)
    ensures Typed(d)
  {
  }

  lemma NotTimer(s: State, a: Action)
    requires Unblocks(s, a)
    ensures !a.Timer? && !a.Spawn? && !a.GiveUp? && !a.Sleep?
  {
  }

  /** A step that leaves the scheduler as it is. */
  lemma CpuStill(s: State, a: Action, r: State)
    requires Inv(s) && Known(s) && Enabled(s, a) && Step(s, a) == Ok(r) && r.cpu == s.cpu
    ensures Typed(s.cpu) && SlicesStep(s.cpu, a, r.cpu)
  {
    hide SyncInv, Links, Exists, Schedule, SchedInv, Queued;
    KnownTyped(s);
    if a.Timer? {
      TimerSlices(s.cpu, r.cpu);
    }
  }

  /**
   * With somebody ready, a step that unblocks nobody either leaves the front of the list and the current task, or
   * makes the front the current task.
   */
  lemma FrontSteps(s: State, a: Action, r: State)
    requires Inv(s) && Known(s) && Enabled(s, a) && Step(s, a) == Ok(r) && !Unblocks(s, a) && s.cpu.ready != []
    ensures r.cpu.cur == s.cpu.ready[0]
            || (r.cpu.cur == s.cpu.cur && r.cpu.ready != [] && r.cpu.ready[0] == s.cpu.ready[0])
  {
    hide SyncInv, Links, Exists, Step, Enabled, Unblocks, Known, SchedInv;
    KnownTyped(s);
    if r.cpu != s.cpu {
      CpuChange(s, a, r);
      FrontMove(s.cpu, a, r.cpu);
    }
  }

  lemma FrontMove(c: Cpu, a: Action, d: Cpu)
    requires SchedInv(c) && Typed(c) && CpuMove(c, a, d) && c.ready != []
    ensures d.cur == c.ready[0] || (d.cur == c.cur && d.ready != [] && d.ready[0] == c.ready[0])
  {
    hide Block, Yield, TimerTick, Queued, SchedInv;
    match a {
      case Timer => TimerExactly(c);
      case GiveUp => YieldExactly(c);
      case Sleep(stat) => BlockFront(c, stat, d);
      case Go => BlockFront(c, Blocked, d);
      case _ =>
    }
  }

  lemma BlockFront(c: Cpu, stat: Status, d: Cpu)
    requires SchedInv(c) && Block(c, stat) == Ok(d) && c.ready != []
    ensures d.cur == c.ready[0]
  {
    hide Schedule, SchedInv, Queued;
    CurrentFree(c);
    BlockExactly(c, stat);
  }

  // ---------------------------------------------------------------- runs

  /** Steps from any state that satisfies the invariant. */
  ghost predicate Steps(ss: seq<State>, aa: seq<Action>) {
    && |ss| == |aa| + 1 && Inv(ss[0])
    && forall i :: 0 <= i < |aa| ==> Known(ss[i]) && Enabled(ss[i], aa[i]) && Step(ss[i], aa[i]) == Ok(ss[i + 1])
  }

  lemma {:induction false} StepsInv(ss: seq<State>, aa: seq<Action>, i: nat)
    requires |ss| == |aa| + 1 && Steps(ss, aa) && i <= |aa|
    ensures Inv(ss[i])
    ensures i < |aa| ==> Known(ss[i]) && Enabled(ss[i], aa[i]) && Step(ss[i], aa[i]) == Ok(ss[i + 1])
  {
    hide Inv, Known, Enabled, Step;
    if i > 0 {
      StepsInv(ss, aa, i - 1);
      OneStep(ss[i - 1], aa[i - 1], ss[i]);
    }
  }

  lemma OneStep(s: State, a: Action, r: State)
    requires Inv(s) && Known(s) && Enabled(s, a) && Step(s, a) == Ok(r)
    ensures Inv(r)
  {
    hide Inv, Known, Enabled, Step;
    StepSafe(s, a);
  }

  /** The current task leaves the processor of its own accord: it yields, blocks, or finds a semaphore at 0. */
  ghost predicate GivesUp(s: State, a: Action) {
    || a.GiveUp? || a.Sleep?
    || (a.Go? && s.sync.pc(s.cpu.cur).Down? && s.sync.sems(s.sync.pc(s.cpu.cur).sem).value == 0)
  }

  /** Without giving up, the current task loses the processor only to a tick that finds nothing left of its slice. */
  lemma StaysOn(s: State, a: Action, r: State)
    requires Inv(s) && Known(s) && Enabled(s, a) && Step(s, a) == Ok(r) && !GivesUp(s, a)
    requires Typed(s.cpu) && (a.Timer? ==> s.cpu.ticks[s.cpu.cur] > 0)
    ensures r.cpu.cur == s.cpu.cur
  {
    hide SyncInv, Links, Exists, SchedInv, Block, Yield, Schedule;
  }

  lemma {:induction false} KeepsTurn(ss: seq<State>, aa: seq<Action>, j: nat, k: nat)
    requires |ss| == |aa| + 1 && Steps(ss, aa) && j <= k <= |aa| && Typed(ss[j].cpu)
    requires forall i :: j <= i < k ==> !GivesUp(ss[i], aa[i])
    requires TimerTicks(aa[j..k]) <= ss[j].cpu.ticks[ss[j].cpu.cur]
    ensures Typed(ss[k].cpu) && ss[k].cpu.cur == ss[j].cpu.cur
    ensures ss[k].cpu.ticks[ss[k].cpu.cur] == ss[j].cpu.ticks[ss[j].cpu.cur] - TimerTicks(aa[j..k])
    decreases k
  {
    hide Inv, Known, Enabled, Step, GivesUp, Steps;
    if k > j {
      var n := k - 1;
      assert aa[j..k][..k - j - 1] == aa[j..n] && aa[j..k][k - j - 1] == aa[n];
      KeepsTurn(ss, aa, j, n);
      StepsInv(ss, aa, n);
      StaysOn(ss[n], aa[n], ss[k]);
      StepSlices(ss[n], aa[n], ss[k]);
    }
  }

  /** While a task does not run, nobody touches its slice. */
  lemma {:induction false} SliceWaits(ss: seq<State>, aa: seq<Action>, t: Tid, i: nat, j: nat)
    requires |ss| == |aa| + 1 && Steps(ss, aa) && i <= j <= |aa| && Typed(ss[i].cpu) && t in ss[i].cpu.status
    requires forall h :: i <= h < j ==> ss[h].cpu.cur != t
    ensures Typed(ss[j].cpu) && t in ss[j].cpu.status
    ensures ss[j].cpu.ticks[t] == ss[i].cpu.ticks[t] && ss[j].cpu.priority[t] == ss[i].cpu.priority[t]
    decreases j
  {
    hide Inv, Known, Enabled, Step, Steps;
    if j > i {
      SliceWaits(ss, aa, t, i, j - 1);
      StepsInv(ss, aa, j - 1);
      StepSlices(ss[j - 1], aa[j - 1], ss[j]);
    }
  }

  /**
   * A task that used up its slice at step 0 and is dispatched again at j has a full one: it keeps the processor for
   * `priority` ticks more unless it gives up, and loses it to the tick after that.
   */
  lemma FullTurn(ss: seq<State>, aa: seq<Action>, t: Tid, j: nat, k: nat)
    requires |ss| == |aa| + 1 && Steps(ss, aa) && 0 < j <= k <= |aa| && aa[0].Timer?
    requires Typed(ss[0].cpu) && ss[0].cpu.cur == t && ss[0].cpu.ticks[t] == 0
    requires (forall i :: 0 < i < j ==> ss[i].cpu.cur != t) && ss[j].cpu.cur == t
    requires (forall i :: j <= i < k ==> !GivesUp(ss[i], aa[i]))
    requires TimerTicks(aa[j..k]) <= ss[0].cpu.priority[t]
    ensures Typed(ss[k].cpu) && ss[k].cpu.cur == t
    ensures ss[k].cpu.ticks[t] == ss[0].cpu.priority[t] - TimerTicks(aa[j..k])
    ensures TimerTicks(aa[j..k]) == ss[0].cpu.priority[t] && k < |aa| && aa[k].Timer? ==>
              ss[k + 1].cpu.cur == (ss[k].cpu.ready + [t])[0]
  {
    hide SyncInv, Links, Exists, SchedInv, Known, Enabled, GivesUp, Steps, Schedule, TimerTick;
    StepsInv(ss, aa, 0);
    StepsInv(ss, aa, k);
    StepSlices(ss[0], aa[0], ss[1]);
    SliceWaits(ss, aa, t, 1, j);
    KeepsTurn(ss, aa, j, k);
    TimerExactly(ss[k].cpu);
  }

  /** The task that a step woke is the next one to get the processor, unless somebody else is woken before. */
  lemma {:induction false} WokenWaits(ss: seq<State>, aa: seq<Action>, k: nat)
    requires |ss| == |aa| + 1 && Steps(ss, aa) && 0 < k <= |aa| && Unblocks(ss[0], aa[0])
    requires forall i :: 0 < i < k ==> !Unblocks(ss[i], aa[i])
    requires forall i :: 0 <= i <= k ==> ss[i].cpu.cur == ss[0].cpu.cur
    ensures ss[k].cpu.ready != [] && ss[k].cpu.ready[0] == Woken(ss[0], aa[0])
  {
    hide Inv, Known, Enabled, Step, Steps, Unblocks, Unblock;
    StepsInv(ss, aa, k - 1);
    if k == 1 {
      WakesFront(ss[0], aa[0], ss[1]);
      UnblockFront(ss[0].cpu, Woken(ss[0], aa[0]), ss[1].cpu);
    } else {
      WokenWaits(ss, aa, k - 1);
      FrontSteps(ss[k - 1], aa[k - 1], ss[k]);
      NotReady(ss[k - 1]);
    }
  }

  lemma NotReady(s: State)
    requires Inv(s)
    ensures s.cpu.ready != [] ==> s.cpu.ready[0] != s.cpu.cur
  {
    hide SyncInv, Links, Exists;
  }

  lemma WokenRuns(ss: seq<State>, aa: seq<Action>, k: nat)
    requires |ss| == |aa| + 1 && Steps(ss, aa) && 0 < k < |aa| && Unblocks(ss[0], aa[0])
    requires forall i :: 0 < i <= k ==> !Unblocks(ss[i], aa[i])
    requires (forall i :: 0 <= i <= k ==> ss[i].cpu.cur == ss[0].cpu.cur) && ss[k + 1].cpu.cur != ss[k].cpu.cur
    ensures ss[k + 1].cpu.cur == Woken(ss[0], aa[0])
  {
    hide Inv, Known, Enabled, Step, Steps, Unblocks, Unblock;
    WokenWaits(ss, aa, k);
    StepsInv(ss, aa, k);
    FrontSteps(ss[k], aa[k], ss[k + 1]);
  }

  // ---------------------------------------------------------------- semaphores and locks

  /** Waiters are served in the order in which they came: they are added behind, and the first one leaves when woken. */
  lemma WaitersInOrder(s: State, a: Action, r: State, m: SemId)
    requires Known(s) && Enabled(s, a) && Step(s, a) == Ok(r)
    ensures var w, v := s.sync.sems(m).waiters, r.sync.sems(m).waiters;
            || v == w || (v == w + [s.cpu.cur] && GivesUp(s, a))
            || (w != [] && v == w[1..] && Unblocks(s, a) && Woken(s, a) == w[0])
  {
    hide Schedule, Block, Unblock, TimerTick, Yield, Start;
  }

  /** One for a lock_acquire that is under way, minus one for a lock_release that is. */
  ghost function Pending(pc: Pc, l: LockId): int {
    if pc in {AcqHolder(l), AcqRepeat(l), AcqInc(l)} || (pc.Down? && pc.sem == OfLock(l)) then 1
    else if pc in {RelDec(l), RelHolder(l)} then -1
    else 0
  }

  /** How often t entered lock_acquire(l) more than lock_release(l). */
  ghost function Entered(ss: seq<State>, aa: seq<Action>, t: Tid, l: LockId): int
    requires |ss| >= |aa|
  {
    if aa == [] then 0
    else
      var n := |aa| - 1;
      Entered(ss, aa[..n], t, l)
      + if ss[n].cpu.cur != t then 0 else if aa[n] == Acquire(l) then 1 else if aa[n] == Release(l) then -1 else 0
  }

  lemma DepthSteps(s: State, a: Action, r: State, t: Tid, l: LockId)
    requires Inv(s) && Known(s) && Enabled(s, a) && Step(s, a) == Ok(r)
    ensures r.sync.depth(t, l) + Pending(r.sync.pc(t), l) ==
            s.sync.depth(t, l) + Pending(s.sync.pc(t), l)
            + if s.cpu.cur != t then 0 else if a == Acquire(l) then 1 else if a == Release(l) then -1 else 0
  {
    hide Schedule, Block, Unblock, TimerTick, Yield, Start, Inv, Known, Field;
    PhaseDepth(s.sync, s.cpu.cur, s);
    if a.Go? && FieldStep(s.sync.pc(s.cpu.cur)) {
      FieldDepth(s.sync, s.cpu.cur, t, l);
    }
  }

  predicate FieldStep(pc: Pc) {
    !pc.Normal? && !pc.Down? && !pc.RelUp?
  }

  /** The phases at which a depth is set rather than counted. */
  lemma PhaseDepth(y: Shared, t: Tid, s: State)
    requires Inv(s) && s.sync == y
    ensures y.pc(t).AcqRepeat? ==> y.depth(t, y.pc(t).l) == 0
    ensures y.pc(t).RelHolder? ==> y.depth(t, y.pc(t).l) == 1
  {
    hide SchedInv, Links, Exists;
    if y.pc(t).AcqRepeat? || y.pc(t).RelHolder? {
      assert LockInv(y, y.pc(t).l);
      assert Inside(y, t, y.pc(t).l);
    }
  }

  lemma FieldDepth(y: Shared, u: Tid, t: Tid, l: LockId)
    requires FieldStep(y.pc(u)) && Field(y, u).Ok?
    requires y.pc(u).AcqRepeat? ==> y.depth(u, y.pc(u).l) == 0
    requires y.pc(u).RelHolder? ==> y.depth(u, y.pc(u).l) == 1
    ensures var z := Field(y, u).value; z.depth(t, l) + Pending(z.pc(t), l) == y.depth(t, l) + Pending(y.pc(t), l)
  {
  }

  /** Between its calls a thread holds a lock as often as it took it more than it gave it back. */
  lemma {:induction false} DepthCounts(ss: seq<State>, aa: seq<Action>, t: Tid, l: LockId, i: nat)
    requires |ss| == |aa| + 1 && Steps(ss, aa) && i <= |aa| && ss[0].sync.pc(t) == Normal && ss[0].sync.depth(t, l) == 0
    ensures ss[i].sync.depth(t, l) + Pending(ss[i].sync.pc(t), l) == Entered(ss, aa[..i], t, l)
    ensures ss[i].sync.pc(t) == Normal ==> ss[i].sync.depth(t, l) == Entered(ss, aa[..i], t, l)
  {
    hide Inv, Known, Enabled, Step, Steps;
    if i > 0 {
      DepthCounts(ss, aa, t, l, i - 1);
      StepsInv(ss, aa, i - 1);
      DepthSteps(ss[i - 1], aa[i - 1], ss[i], t, l);
      assert aa[..i][..i - 1] == aa[..i - 1] && aa[..i][i - 1] == aa[i - 1];
    }
  }
}
