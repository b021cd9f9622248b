// thread/thread.c and device/timer.c: task states, the ready list and the scheduler, on sequences.

module Threads {
  import opened IntrusiveLists

  type Tid = nat

  datatype Status = Running | Ready | Blocked | Waiting | Hanging | Died

  /** The three states thread_block accepts and thread_unblock expects. */
  predicate Asleep(st: Status) {
    st.Blocked? || st.Waiting? || st.Hanging?
  }

  /** An ASSERT that fails stops the machine. */
  datatype Outcome<+T> = Panic | Ok(value: T)

  /** The scheduler's globals and the scheduling fields of every task_struct. */
  datatype Cpu = Cpu(
    cur: Tid,
    idle: Tid,
    status: map<Tid, Status>,
    ticks: map<Tid, nat>,
    priority: map<Tid, nat>,
    ready: seq<Tid>)

  ghost predicate Typed(c: Cpu) {
    && c.cur in c.status && c.idle in c.status
    && c.status.Keys == c.ticks.Keys == c.priority.Keys
    && forall t :: t in c.ready ==> t in c.status
  }

  // ---------------------------------------------------------------- thread.c

  /** thread_unblock: both ASSERTs, then the task goes to the FRONT of the ready list */
  function Unblock(c: Cpu, t: Tid): (r: Outcome<Cpu>)
    requires Typed(c) && t in c.status
    ensures r.Ok? ==> Typed(r.value)
  {
    if !Asleep(c.status[t]) || t in c.ready then Panic
    else Ok(c.(ready := [t] + c.ready, status := c.status[t := Ready]))
  }

  /** The first branch of schedule: a task that only used up its slice goes to the back. */
  function PutBack(c: Cpu): (r: Cpu)
    requires Typed(c)
    ensures Typed(r)
  {
    if c.status[c.cur] == Running then
      c.(ready := c.ready + [c.cur],
         ticks := c.ticks[c.cur := c.priority[c.cur]],
         status := c.status[c.cur := Ready])
    else c
  }

  /** The end of schedule: pop the first ready task and switch to it. */
  function Dispatch(c: Cpu): (r: Cpu)
    requires Typed(c) && c.ready != []
    ensures Typed(r)
  {
    c.(cur := c.ready[0], ready := c.ready[1..], status := c.status[c.ready[0] := Running])
  }

  /** schedule */
  function Schedule(c: Cpu): (r: Outcome<Cpu>)
    requires Typed(c)
    ensures r.Ok? ==> Typed(r.value)
  {
    if c.status[c.cur] == Running && c.cur in c.ready then Panic
    else
      var a := PutBack(c);
      var b := if a.ready == [] then Unblock(a, a.idle) else Ok(a);
      if b.Panic? || b.value.ready == [] then Panic
      else Ok(Dispatch(b.value))
  }

  /** thread_block */
  function Block(c: Cpu, stat: Status): (r: Outcome<Cpu>)
    requires Typed(c)
    ensures r.Ok? ==> Typed(r.value)
  {
    if !Asleep(stat) then Panic
    else Schedule(c.(status := c.status[c.cur := stat]))
  }

  /** thread_yield: the slice is not refilled, because schedule sees a READY task */
  function Yield(c: Cpu): (r: Outcome<Cpu>)
    requires Typed(c)
    ensures r.Ok? ==> Typed(r.value)
  {
    if c.cur in c.ready then Panic
    else Schedule(c.(ready := c.ready + [c.cur], status := c.status[c.cur := Ready]))
  }

  /** thread_start, from the point where the new task becomes visible */
  function Start(c: Cpu, t: Tid, prio: nat): (r: Outcome<Cpu>)
    requires Typed(c) && t !in c.status
    ensures r.Ok? ==> Typed(r.value)
  {
    if t in c.ready then Panic
    else Ok(c.(ready := c.ready + [t], status := c.status[t := Ready],
               ticks := c.ticks[t := prio], priority := c.priority[t := prio]))
  }

  /** intr_timer_handler */
  function TimerTick(c: Cpu): (r: Outcome<Cpu>)
    requires Typed(c)
    ensures r.Ok? ==> Typed(r.value)
  {
    if c.ticks[c.cur] == 0 then Schedule(c)
    else Ok(c.(ticks := c.ticks[c.cur := c.ticks[c.cur] - 1]))
  }

  // ---------------------------------------------------------------- the invariant

  /** READY is exactly membership of the ready list; nobody but possibly the current task is RUNNING. */
  ghost predicate Queued(c: Cpu) {
    && Typed(c)
    && NoDup(c.ready)
    && (forall t :: t in c.status ==> (c.status[t] == Ready <==> t in c.ready))
    && (forall t :: t in c.status ==> c.status[t] != Died && (t != c.cur ==> c.status[t] != Running))
    && (forall t :: t in c.status ==> c.ticks[t] <= c.priority[t])
  }

  /** Between any two interrupts-off regions: exactly one task is RUNNING, and it is the current one. */
  ghost predicate SchedInv(c: Cpu) {
    Queued(c) && c.status[c.cur] == Running
  }

  /** Who is asleep changes, across a schedule, at most for the idle task. */
  ghost predicate SameSleepers(c: Cpu, d: Cpu) {
    && c.status.Keys == d.status.Keys && c.idle == d.idle
    && forall t :: t in c.status && t != c.idle ==> (Asleep(c.status[t]) <==> Asleep(d.status[t]))
  }

  /**
   * schedule never panics, whether it was reached by the timer (current task RUNNING), by thread_block
   * (asleep) or by thread_yield (READY and queued).  When the ready list is empty the idle task is asleep.
   */
  lemma ScheduleSafe(c: Cpu)
    requires Queued(c)
    ensures Schedule(c).Ok? && SchedInv(Schedule(c).value)
    ensures SameSleepers(c, Schedule(c).value)
  {
    hide Queued, PutBack, Unblock, Dispatch, SameSleepers;
    QueuedTyped(c);
    PutBackSafe(c);
    var a := PutBack(c);
    if a.ready == [] {
      WakeSafe(a);
      var b := Unblock(a, a.idle).value;
      DispatchSafe(b);
      SameTwo(a, b, Dispatch(b));
    } else {
      DispatchSafe(a);
    }
    SameTwo(c, a, Schedule(c).value);
  }

  lemma QueuedTyped(c: Cpu)
    requires Queued(c)
    ensures Typed(c)
  {
  }

  lemma PutBackSafe(c: Cpu)
    requires Queued(c)
    ensures var a := PutBack(c); Queued(a) && SameSleepers(c, a) && a.status[a.cur] != Running
    ensures c.status[c.cur] == Running ==> c.cur !in c.ready
    ensures PutBack(c).idle == c.idle
  {
  }

  /** With nothing ready and nobody running the idle task is asleep and can be woken. */
  lemma WakeSafe(c: Cpu)
    requires Queued(c) && c.ready == [] && c.status[c.cur] != Running
    ensures Asleep(c.status[c.idle]) && Unblock(c, c.idle).Ok?
    ensures var b := Unblock(c, c.idle).value;
            && Queued(b) && b.ready != [] && b.status[b.cur] != Running
            && SameSleepers(c, b)
  {
  }

  lemma SameTwo(a: Cpu, b: Cpu, c: Cpu)
    requires SameSleepers(a, b) && SameSleepers(b, c)
    ensures SameSleepers(a, c)
  {
  }

  /** The steps of a schedule, each with its ASSERT: put back, wake idle if nothing is ready, dispatch. */
  lemma ScheduleSteps(c: Cpu)
    requires Queued(c)
    ensures c.status[c.cur] == Running ==> c.cur !in c.ready
    ensures Queued(PutBack(c))
    ensures PutBack(c).ready != [] ==> Schedule(c) == Ok(Dispatch(PutBack(c)))
    ensures PutBack(c).ready == [] ==>
              var b := Unblock(PutBack(c), c.idle);
              b.Ok? && b.value.ready != [] && Schedule(c) == Ok(Dispatch(b.value))
  {
    ScheduleSafe(c);
  }

  lemma DispatchSafe(c: Cpu)
    requires Queued(c) && c.ready != [] && c.status[c.cur] != Running
    ensures SchedInv(Dispatch(c)) && SameSleepers(c, Dispatch(c))
  {
    var d := Dispatch(c);
    assert c.ready == [c.ready[0]] + d.ready;
    assert NoDup(d.ready) && c.ready[0] !in d.ready;
  }

  /** A running task is not on the ready list. */
  lemma CurrentFree(c: Cpu)
    requires SchedInv(c)
    ensures Queued(c) && Typed(c) && c.cur !in c.ready
  {
  }

  /** Every entry of thread.c and the timer handler keep the invariant and fire no ASSERT. */
  lemma BlockSafe(c: Cpu, stat: Status)
    requires SchedInv(c) && Asleep(stat)
    ensures Block(c, stat).Ok? && SchedInv(Block(c, stat).value)
    ensures Queued(c.(status := c.status[c.cur := stat]))
    ensures SameSleepers(c.(status := c.status[c.cur := stat]), Block(c, stat).value)
  {
    ScheduleSafe(c.(status := c.status[c.cur := stat]));
  }

  lemma YieldQueued(c: Cpu)
    requires SchedInv(c)
    ensures Queued(c.(ready := c.ready + [c.cur], status := c.status[c.cur := Ready]))
  {
  }

  lemma YieldSafe(c: Cpu)
    requires SchedInv(c)
    ensures Yield(c).Ok? && SchedInv(Yield(c).value) && SameSleepers(c, Yield(c).value)
  {
    YieldQueued(c);
    ScheduleSafe(c.(ready := c.ready + [c.cur], status := c.status[c.cur := Ready]));
  }

  lemma TimerSafe(c: Cpu)
    requires SchedInv(c)
    ensures TimerTick(c).Ok? && SchedInv(TimerTick(c).value) && SameSleepers(c, TimerTick(c).value)
  {
    ScheduleSafe(c);
  }

  lemma UnblockSafe(c: Cpu, t: Tid)
    requires SchedInv(c) && t in c.status && Asleep(c.status[t])
    ensures Unblock(c, t).Ok? && SchedInv(Unblock(c, t).value)
  {
  }

  lemma StartSafe(c: Cpu, t: Tid, prio: nat)
    requires SchedInv(c) && t !in c.status
    ensures Start(c, t, prio).Ok? && SchedInv(Start(c, t, prio).value)
  {
    assert t !in c.ready;
  }

  // ---------------------------------------------------------------- bounded waiting

  /** Timer ticks that the tasks ready[0..k) may still use, each its rest slice and the tick that switches. */
  ghost function Slices(c: Cpu, k: nat): (n: nat)
    requires Typed(c) && k <= |c.ready|
  {
    if k == 0 then 0 else Slices(c, k - 1) + c.ticks[c.ready[k - 1]] + 1
  }

  /** The bound on the wait of the task at index k of the ready list. */
  ghost function Wait(c: Cpu, k: nat): (n: nat)
    requires Typed(c) && k <= |c.ready|
    ensures n > 0
  {
    c.ticks[c.cur] + 1 + Slices(c, k)
  }

  lemma {:induction false} SlicesSame(c: Cpu, d: Cpu, k: nat)
    requires Typed(c) && Typed(d) && k <= |c.ready| && k <= |d.ready|
    requires forall i :: 0 <= i < k ==> d.ready[i] == c.ready[i] && d.ticks[d.ready[i]] == c.ticks[c.ready[i]]
    ensures Slices(d, k) == Slices(c, k)
  {
    if k > 0 {
      SlicesSame(c, d, k - 1);
    }
  }

  /** Dropping the first ready task takes its share off. */
  lemma {:induction false} SlicesTail(c: Cpu, d: Cpu, k: nat)
    requires Typed(c) && Typed(d) && 0 < k <= |c.ready| && d.ready == c.ready[1..] && d.ticks == c.ticks
    ensures Slices(c, k) == c.ticks[c.ready[0]] + 1 + Slices(d, k - 1)
  {
    if k > 1 {
      SlicesTail(c, d, k - 1);
    }
  }

  /**
   * A reschedule of any kind (slice used up, yield or block) serves the ready list in order: the task at
   * index k either gets the processor or moves up, and its bound drops by at least the current task's share.
   */
  lemma ScheduleProgress(c: Cpu, k: nat)
    requires Queued(c) && k < |c.ready|
    ensures Schedule(c).Ok?
    ensures k == 0 ==> Schedule(c).value.cur == c.ready[0]
    ensures k > 0 ==> k - 1 < |Schedule(c).value.ready| && Schedule(c).value.ready[k - 1] == c.ready[k]
    ensures k > 0 ==> Wait(Schedule(c).value, k - 1) == Wait(c, k) - (c.ticks[c.cur] + 1)
  {
    ScheduleSafe(c);
    var a := PutBack(c);
    var d := Schedule(c).value;
    assert a.ready != [] && d == Dispatch(a);
    if k > 0 {
      SlicesSame(c, a, k);
      SlicesTail(a, d, k);
    }
  }
}
