// thread/sync.c as a step system over every interleaving, with the disk handshake of device/ide.c.
// Each interrupts-off region is one step; every statement of lock_acquire and lock_release that runs with
// interrupts on is a step of its own, between which the timer may take the processor away.

module Sync {
  import opened IntrusiveLists
  import opened Threads

  datatype Option<+T> = None | Some(value: T)

  /** Channel(c) is the lock of IDE channel c; Plain(n) stands for every other lock of the kernel. */
  datatype LockId = Plain(n: nat) | Channel(n: nat)

  datatype SemId = OfLock(lock: LockId) | DiskDone(chan: nat)

  /** struct semaphore */
  datatype Sem = Sem(value: nat, waiters: seq<Tid>)

  /** struct lock.  `owner` is a history variable: who is between its sema_down and its sema_up. */
  datatype Lock = Lock(holder: Option<Tid>, repeat: nat, owner: Option<Tid>)

  /** Where a thread stands inside lock_acquire, lock_release or sema_down. */
  datatype Pc =
    | Normal
    | Down(sem: SemId, parked: bool)  // parked: blocked inside the retry loop, interrupts off
    | AcqHolder(l: LockId)            // about to set holder
    | AcqRepeat(l: LockId)            // about to check and set holder_repeat_nr
    | AcqInc(l: LockId)               // found itself the holder, about to count up
    | RelDec(l: LockId)               // nested, about to count down
    | RelHolder(l: LockId)            // about to clear holder
    | RelRepeat(l: LockId)            // about to clear holder_repeat_nr
    | RelUp(l: LockId)                // about to call sema_up

  /** Every thread, lock and channel that may ever exist; `depth` is a history variable, acquires minus releases. */
  datatype Shared = Shared(
    pc: Tid -> Pc,
    depth: (Tid, LockId) -> nat,
    sems: SemId -> Sem,
    locks: LockId -> Lock,
    expecting: nat -> bool)           // channel->expecting_intr

  datatype State = State(cpu: Cpu, sync: Shared)

  // ---------------------------------------------------------------- steps

  datatype Action =
    | Timer                          // timer interrupt
    | Intr(chan: nat)                // disk interrupt, expected or not
    | GiveUp                         // thread_yield
    | Spawn(tid: Tid, prio: nat)     // thread_start
    | Sleep(stat: Status)            // thread_block
    | Wake(tid: Tid)                 // thread_unblock of a task that called thread_block itself
    | Acquire(l: LockId)             // enter lock_acquire
    | Release(l: LockId)             // enter lock_release
    | Issue(chan: nat)               // cmd_out: set expecting_intr and start the disk
    | Go                             // next statement of the current thread's sync operation

  /** The timer and the disk interrupt everything except the resumed half of sema_down. */
  predicate Interruptible(pc: Pc) {
    !(pc.Down? && pc.parked)
  }

  /** Only existing tasks are inside an operation or on a list. */
  ghost predicate Known(s: State) {
    && Typed(s.cpu)
    && (forall t: Tid :: s.sync.pc(t) != Normal ==> t in s.cpu.status)
    && (forall m, t: Tid :: t in s.sync.sems(m).waiters ==> t in s.cpu.status)
  }

  /** What the kernel's callers do: only a holder releases or drives the disk, and idle takes no locks. */
  predicate Enabled(s: State, a: Action) {
    var t := s.cpu.cur;
    var pc := s.sync.pc(t);
    match a
    case Timer => Interruptible(pc)
    case Intr(c) => Interruptible(pc)
    case GiveUp => Interruptible(pc) && t != s.cpu.idle
    case Spawn(n, _) => pc == Normal && n !in s.cpu.status && t != s.cpu.idle
    case Sleep(stat) => pc == Normal && Asleep(stat)
    case Wake(w) => Interruptible(pc) && w in s.cpu.status && s.sync.pc(w) == Normal && Asleep(s.cpu.status[w])
    case Acquire(l) => pc == Normal && t != s.cpu.idle
    case Release(l) => pc == Normal && s.sync.depth(t, l) > 0
    case Issue(c) => pc == Normal && s.sync.depth(t, Channel(c)) > 0
    case Go => pc != Normal
  }

  function WithCpu(s: State, c: Outcome<Cpu>): Outcome<State> {
    if c.Panic? then Panic else Ok(s.(cpu := c.value))
  }

  function At(y: Shared, t: Tid, p: Pc): Shared {
    y.(pc := (u: Tid) => if u == t then p else y.pc(u))
  }

  function SetDepth(y: Shared, t: Tid, l: LockId, n: nat): Shared {
    y.(depth := (u: Tid, k: LockId) => (if u == t && k == l then n else y.depth(u, k)) as nat)
  }

  function SetLock(y: Shared, l: LockId, v: Lock): Shared {
    y.(locks := (k: LockId) => if k == l then v else y.locks(k))
  }

  function SetSem(y: Shared, m: SemId, v: Sem): Shared {
    y.(sems := (n: SemId) => if n == m then v else y.sems(n))
  }

  function Expect(y: Shared, c: nat, e: bool): Shared {
    y.(expecting := (d: nat) => if d == c then e else y.expecting(d))
  }

  /** Parking thread t on semaphore m. */
  function Parked(y: Shared, t: Tid, m: SemId): Shared {
    SetSem(At(y, t, Down(m, true)), m, y.sems(m).(waiters := y.sems(m).waiters + [t]))
  }

  /** Thread t leaves sema_down with semaphore m taken. */
  function Taken(y: Shared, t: Tid, m: SemId): Shared {
    match m
    case OfLock(l) =>
      SetLock(SetSem(At(y, t, AcqHolder(l)), m, y.sems(m).(value := 0)), l, y.locks(l).(owner := Some(t)))
    case DiskDone(_) => SetSem(At(y, t, Normal), m, y.sems(m).(value := 0))
  }

  /** sema_down from cli, or from its wake-up, to its end or to the next block */
  function SemaDown(s: State, m: SemId): Outcome<State>
    requires Known(s)
  {
    var t, y, v := s.cpu.cur, s.sync, s.sync.sems(m);
    if v.value == 0 then
      if t in v.waiters then Panic
      else WithCpu(s.(sync := Parked(y, t, m)), Block(s.cpu, Blocked))
    else if v.value - 1 != 0 then Panic
    else Ok(s.(sync := Taken(y, t, m)))
  }

  /** The semaphore after sema_up: the first waiter, if any, has left the list. */
  function Raised(v: Sem): Sem {
    Sem(1, if v.waiters == [] then [] else v.waiters[1..])
  }

  /** sema_up */
  function SemaUp(s: State, m: SemId): Outcome<State>
    requires Known(s)
  {
    var v := s.sync.sems(m);
    var z := SetSem(s.sync, m, Raised(v));
    if v.value != 0 then Panic
    else if v.waiters == [] then Ok(s.(sync := z))
    else WithCpu(s.(sync := z), Unblock(s.cpu, v.waiters[0]))
  }

  /** intr_hd_handler */
  function DiskInterrupt(s: State, c: nat): Outcome<State>
    requires Known(s)
  {
    if !s.sync.expecting(c) then Ok(s)
    else SemaUp(s.(sync := Expect(s.sync, c, false)), DiskDone(c))
  }

  /** The statements of lock_acquire and lock_release that write holder or holder_repeat_nr. */
  function Field(y: Shared, t: Tid): Outcome<Shared> {
    match y.pc(t)
    case AcqHolder(l) => Ok(SetLock(At(y, t, AcqRepeat(l)), l, y.locks(l).(holder := Some(t))))
    case AcqRepeat(l) =>
      if y.locks(l).repeat != 0 then Panic
      else Ok(SetLock(SetDepth(At(y, t, Normal), t, l, 1), l, y.locks(l).(repeat := 1)))
    case AcqInc(l) =>
      Ok(SetLock(SetDepth(At(y, t, Normal), t, l, y.depth(t, l) + 1), l, y.locks(l).(repeat := y.locks(l).repeat + 1)))
    case RelDec(l) =>
      if y.locks(l).repeat == 0 || y.depth(t, l) == 0 then Panic
      else Ok(SetLock(SetDepth(At(y, t, Normal), t, l, y.depth(t, l) - 1), l,
          y.locks(l).(repeat := y.locks(l).repeat - 1)))
    case RelHolder(l) =>
      if y.locks(l).repeat != 1 then Panic
      else Ok(SetLock(SetDepth(At(y, t, RelRepeat(l)), t, l, 0), l, y.locks(l).(holder := None)))
    case RelRepeat(l) => Ok(SetLock(At(y, t, RelUp(l)), l, y.locks(l).(repeat := 0)))
    case _ => Panic
  }

  function Leave(y: Shared, t: Tid, l: LockId): Shared {
    SetLock(At(y, t, Normal), l, y.locks(l).(owner := None))
  }

  function Continue(s: State): Outcome<State>
    requires Known(s)
  {
    var t, y := s.cpu.cur, s.sync;
    match y.pc(t)
    case Down(m, _) => SemaDown(s, m)
    case RelUp(l) => SemaUp(s.(sync := Leave(y, t, l)), OfLock(l))
    case _ => var f := Field(y, t); if f.Panic? then Panic else Ok(s.(sync := f.value))
  }

  function EnterAcquire(y: Shared, t: Tid, l: LockId): Shared {
    At(y, t, if y.locks(l).holder != Some(t) then Down(OfLock(l), false) else AcqInc(l))
  }

  function EnterRelease(y: Shared, t: Tid, l: LockId): Shared {
    At(y, t, if y.locks(l).repeat > 1 then RelDec(l) else RelHolder(l))
  }

  function Step(s: State, a: Action): Outcome<State>
    requires Known(s) && Enabled(s, a)
  {
    var t, y := s.cpu.cur, s.sync;
    match a
    case Timer => WithCpu(s, TimerTick(s.cpu))
    case Intr(c) => DiskInterrupt(s, c)
    case GiveUp => WithCpu(s, Yield(s.cpu))
    case Spawn(n, prio) => WithCpu(s, Start(s.cpu, n, prio))
    case Sleep(stat) => WithCpu(s, Block(s.cpu, stat))
    case Wake(w) => WithCpu(s, Unblock(s.cpu, w))
    case Acquire(l) => Ok(s.(sync := EnterAcquire(y, t, l)))
    case Release(l) => if y.locks(l).holder != Some(t) then Panic else Ok(s.(sync := EnterRelease(y, t, l)))
    case Issue(c) => Ok(s.(sync := At(Expect(y, c, true), t, Down(DiskDone(c), false))))
    case Go => Continue(s)
  }

  // ---------------------------------------------------------------- the invariant

  /** Thread t is between its completed sema_down and its sema_up on lock l. */
  predicate Inside(y: Shared, t: Tid, l: LockId) {
    y.depth(t, l) > 0 || y.pc(t) in {AcqHolder(l), AcqRepeat(l), RelRepeat(l), RelUp(l)}
  }

  /** holder and holder_repeat_nr at every point of the owner's way through acquire and release. */
  predicate Phase(pc: Pc, k: Lock, d: nat, t: Tid, l: LockId) {
    if pc == AcqHolder(l) then k.holder == None && k.repeat == 0 && d == 0
    else if pc == AcqRepeat(l) then k.holder == Some(t) && k.repeat == 0 && d == 0
    else if pc == RelRepeat(l) then k.holder == None && k.repeat == 1 && d == 0
    else if pc == RelUp(l) then k.holder == None && k.repeat == 0 && d == 0
    else
      && k.holder == Some(t) && k.repeat == d >= 1
      && (pc == RelDec(l) ==> d >= 2) && (pc == RelHolder(l) ==> d == 1)
      && !(pc.Down? && pc.sem == OfLock(l))
  }

  predicate OwnerPhase(y: Shared, t: Tid, l: LockId) {
    Phase(y.pc(t), y.locks(l), y.depth(t, l), t, l)
  }

  ghost predicate LockInv(y: Shared, l: LockId) {
    var v, k := y.sems(OfLock(l)), y.locks(l);
    && v.value <= 1 && (v.value == 1 <==> k.owner == None)
    && (k.owner == None ==> k.holder == None && k.repeat == 0)
    && (k.owner.Some? ==> OwnerPhase(y, k.owner.value, l))
    && (forall t: Tid :: Inside(y, t, l) ==> k.owner == Some(t))
    && (forall t: Tid :: y.pc(t) in {AcqInc(l), RelDec(l), RelHolder(l)} ==> y.depth(t, l) > 0)
  }

  /** Value 1 with waiters left implies that some already woken thread has still to retry. */
  ghost predicate NoLostWakeup(y: Shared, m: SemId) {
    y.sems(m).value > 0 && y.sems(m).waiters != [] ==>
      exists t: Tid :: y.pc(t) == Down(m, true) && t !in y.sems(m).waiters
  }

  predicate OnDisk(pc: Pc, c: nat) {
    pc.Down? && pc.sem == DiskDone(c)
  }

  /** The driver thread waits on disk_done exactly while a command is outstanding or its end not yet seen. */
  ghost predicate DiskInv(y: Shared, c: nat) {
    var v, e, o := y.sems(DiskDone(c)), y.expecting(c), y.locks(Channel(c)).owner;
    && v.value <= 1 && (e ==> v.value == 0) && (v.waiters != [] ==> e)
    && (forall t: Tid :: OnDisk(y.pc(t), c) ==> y.depth(t, Channel(c)) > 0 && (e || v.value == 1))
    && (e || v.value == 1 ==> o.Some? && OnDisk(y.pc(o.value), c))
  }

  ghost predicate WaitersInv(y: Shared, m: SemId) {
    NoDup(y.sems(m).waiters) && forall t: Tid :: t in y.sems(m).waiters ==> y.pc(t) == Down(m, true)
  }

  ghost predicate SyncInv(y: Shared) {
    && (forall l :: LockInv(y, l))
    && (forall l :: NoLostWakeup(y, OfLock(l)))
    && (forall c: nat :: DiskInv(y, c))
    && (forall m :: WaitersInv(y, m))
  }

  /** A thread parked in sema_down is asleep exactly while it is on that semaphore's list. */
  ghost predicate Links(c: Cpu, y: Shared) {
    && (forall t: Tid, m :: y.pc(t) == Down(m, true) && t in c.status ==>
        (Asleep(c.status[t]) <==> t in y.sems(m).waiters))
  }

  ghost predicate Exists(c: Cpu, y: Shared) {
    && (forall t: Tid :: y.pc(t) != Normal ==> t in c.status)
    && (forall t: Tid, l :: y.depth(t, l) > 0 ==> t in c.status && t != c.idle)
    && y.pc(c.idle) == Normal
  }

  ghost predicate Inv(s: State) {
    SchedInv(s.cpu) && SyncInv(s.sync) && Links(s.cpu, s.sync) && Exists(s.cpu, s.sync)
  }

  lemma InvKnown(s: State)
    requires Inv(s)
    ensures Known(s)
  {
    forall m, t: Tid | t in s.sync.sems(m).waiters ensures t in s.cpu.status {
      assert WaitersInv(s.sync, m);
    }
  }

  // ---------------------------------------------------------------- frames

  predicate Mentions(pc: Pc, l: LockId) {
    (pc.Down? && pc.sem == OfLock(l)) ||
    pc in {AcqHolder(l), AcqRepeat(l), AcqInc(l), RelDec(l), RelHolder(l), RelRepeat(l), RelUp(l)}
  }

  predicate About(pc: Pc, l: LockId) {
    pc == Normal || Mentions(pc, l)
  }

  /** Only thread u moves, and it moves to p. */
  ghost predicate Moves(y: Shared, z: Shared, u: Tid, p: Pc) {
    forall t: Tid :: z.pc(t) == if t == u then p else y.pc(t)
  }

  ghost predicate SameDepth(y: Shared, z: Shared, l: LockId) {
    forall t: Tid :: z.depth(t, l) == y.depth(t, l)
  }

  lemma FrameLock(y: Shared, z: Shared, u: Tid, p: Pc, l: LockId)
    requires LockInv(y, l) && Moves(y, z, u, p) && SameDepth(y, z, l)
    requires !Mentions(p, l) && !Mentions(y.pc(u), l)
    requires z.locks(l) == y.locks(l) && z.sems(OfLock(l)) == y.sems(OfLock(l))
    ensures LockInv(z, l)
  {
    forall t: Tid | Inside(z, t, l) ensures y.locks(l).owner == Some(t) {
      assert Inside(y, t, l);
    }
  }

  /** Moving a thread that is not a woken waiter of m loses no wake-up of m. */
  lemma FrameWakers(y: Shared, z: Shared, u: Tid, p: Pc, m: SemId)
    requires NoLostWakeup(y, m) && Moves(y, z, u, p)
    requires y.pc(u) != Down(m, true) && z.sems(m) == y.sems(m)
    ensures NoLostWakeup(z, m)
  {
    if y.sems(m).value > 0 && y.sems(m).waiters != [] {
      var t: Tid :| y.pc(t) == Down(m, true) && t !in y.sems(m).waiters;
      assert z.pc(t) == Down(m, true);
    }
  }

  lemma FrameDisk(y: Shared, z: Shared, u: Tid, p: Pc, c: nat)
    requires DiskInv(y, c) && Moves(y, z, u, p) && !OnDisk(p, c) && !OnDisk(y.pc(u), c)
    requires z.expecting(c) == y.expecting(c) && z.sems(DiskDone(c)) == y.sems(DiskDone(c))
    requires forall t: Tid :: t != u ==> z.depth(t, Channel(c)) == y.depth(t, Channel(c))
    requires y.locks(Channel(c)).owner == z.locks(Channel(c)).owner || y.locks(Channel(c)).owner in {None, Some(u)}
    ensures DiskInv(z, c)
  {
  }

  lemma FrameWaiters(y: Shared, z: Shared, u: Tid, p: Pc, m: SemId)
    requires WaitersInv(y, m) && Moves(y, z, u, p) && u !in y.sems(m).waiters
    requires z.sems(m).waiters == y.sems(m).waiters
    ensures WaitersInv(z, m)
  {
  }

  ghost predicate Unqueued(y: Shared, u: Tid) {
    forall m :: u !in y.sems(m).waiters
  }

  /** A running task is on no waiters list. */
  lemma CurrentUnqueued(s: State)
    requires Inv(s)
    ensures Unqueued(s.sync, s.cpu.cur)
  {
    forall m ensures s.cpu.cur !in s.sync.sems(m).waiters {
      assert WaitersInv(s.sync, m);
    }
  }

  /** A step of thread u on lock l: it moves to p, and only that lock and its nesting depth on it change. */
  ghost predicate OnlyLock(y: Shared, z: Shared, u: Tid, p: Pc, l: LockId) {
    && Moves(y, z, u, p) && About(p, l) && About(y.pc(u), l)
    && (forall t: Tid, k :: t != u || k != l ==> z.depth(t, k) == y.depth(t, k))
    && (forall k :: k != l ==> z.locks(k) == y.locks(k))
    && (forall m :: m != OfLock(l) ==> z.sems(m) == y.sems(m))
    && z.sems(OfLock(l)).waiters == y.sems(OfLock(l)).waiters
    && (forall c: nat :: z.expecting(c) == y.expecting(c))
    && (z.locks(l).owner == y.locks(l).owner || y.locks(l).owner in {None, Some(u)})
  }

  /** Such a step keeps the shared invariant when it keeps it for that lock. */
  lemma LockStep(y: Shared, z: Shared, u: Tid, p: Pc, l: LockId)
    requires SyncInv(y) && Unqueued(y, u) && OnlyLock(y, z, u, p, l)
    requires LockInv(z, l) && NoLostWakeup(z, OfLock(l))
    ensures SyncInv(z)
  {
    hide LockInv, NoLostWakeup, DiskInv, WaitersInv, Moves;
    forall k ensures LockInv(z, k) {
      if k != l { FrameLock(y, z, u, p, k); }
    }
    forall k ensures NoLostWakeup(z, OfLock(k)) {
      if k != l { FrameWakers(y, z, u, p, OfLock(k)); }
    }
    forall c: nat ensures DiskInv(z, c) {
      FrameDisk(y, z, u, p, c);
    }
    forall m ensures WaitersInv(z, m) {
      FrameWaiters(y, z, u, p, m);
    }
  }

  /** A lock step of the current thread does not disturb the scheduler's side. */
  lemma LockStepLinks(s: State, z: Shared, p: Pc, l: LockId)
    requires Links(s.cpu, s.sync) && Exists(s.cpu, s.sync) && Typed(s.cpu)
    requires OnlyLock(s.sync, z, s.cpu.cur, p, l) && Interruptible(p) && s.cpu.cur != s.cpu.idle
    ensures Links(s.cpu, z) && Exists(s.cpu, z)
  {
    forall t: Tid, m | z.pc(t) == Down(m, true) && t in s.cpu.status
      ensures Asleep(s.cpu.status[t]) <==> t in z.sems(m).waiters
    {
      assert s.sync.pc(t) == Down(m, true) && z.sems(m).waiters == s.sync.sems(m).waiters;
    }
  }

  lemma LockStepInv(s: State, z: Shared, p: Pc, l: LockId)
    requires Inv(s) && OnlyLock(s.sync, z, s.cpu.cur, p, l) && Interruptible(p) && s.cpu.cur != s.cpu.idle
    requires LockInv(z, l) && NoLostWakeup(z, OfLock(l))
    ensures Inv(s.(sync := z))
  {
    CurrentUnqueued(s);
    hide LockInv, NoLostWakeup, OnlyLock, Links, Exists;
    LockStep(s.sync, z, s.cpu.cur, p, l);
    LockStepLinks(s, z, p, l);
  }

  // ---------------------------------------------------------------- every step keeps the invariant

  ghost predicate Keeps(s: State, a: Action)
    requires Known(s) && Enabled(s, a)
  {
    Step(s, a).Ok? && Inv(Step(s, a).value)
  }

  /** A scheduler change that wakes and parks nobody inside sema_down leaves the rest of the invariant alone. */
  lemma SchedulerOnly(s: State, d: Cpu)
    requires Inv(s) && SchedInv(d) && s.cpu.status.Keys <= d.status.Keys && d.idle == s.cpu.idle
    requires forall t: Tid :: t in s.cpu.status && s.sync.pc(t) != Normal ==>
               (Asleep(s.cpu.status[t]) <==> Asleep(d.status[t]))
    ensures Inv(s.(cpu := d))
  {
    hide SyncInv;
  }

  lemma TimerKeeps(s: State)
    requires Inv(s) && Enabled(s, Timer)
    ensures Known(s) && Keeps(s, Timer)
  {
    InvKnown(s);
    hide SyncInv, Links;
    TimerSafe(s.cpu);
    SchedulerOnly(s, TimerTick(s.cpu).value);
  }

  lemma GiveUpKeeps(s: State)
    requires Inv(s) && Enabled(s, GiveUp)
    ensures Known(s) && Keeps(s, GiveUp)
  {
    InvKnown(s);
    hide SyncInv, Links;
    YieldSafe(s.cpu);
    SchedulerOnly(s, Yield(s.cpu).value);
  }

  /** After thread_block the current task sleeps too, and nobody else fell asleep or woke, idle aside. */
  lemma BlockSleeps(c: Cpu, stat: Status)
    requires SchedInv(c) && Asleep(stat)
    ensures Block(c, stat).Ok? && SchedInv(Block(c, stat).value)
    ensures var d := Block(c, stat).value;
            && d.status.Keys == c.status.Keys && d.idle == c.idle
            && forall t: Tid :: t in d.status && t != d.idle ==>
                 (Asleep(d.status[t]) <==> (t == c.cur || Asleep(c.status[t])))
  {
    hide Schedule, SchedInv, Queued;
    SchedTyped(c);
    BlockSafe(c, stat);
  }

  lemma SchedTyped(c: Cpu)
    requires SchedInv(c)
    ensures Typed(c)
  {
  }

  lemma SleepKeeps(s: State, stat: Status)
    requires Inv(s) && Enabled(s, Sleep(stat))
    ensures Known(s) && Keeps(s, Sleep(stat))
  {
    hide SyncInv, SchedInv, Links, Block;
    InvKnown(s);
    BlockSleeps(s.cpu, stat);
    SchedulerOnly(s, Block(s.cpu, stat).value);
  }

  lemma WakeKeeps(s: State, w: Tid)
    requires Inv(s) && Enabled(s, Wake(w))
    ensures Known(s) && Keeps(s, Wake(w))
  {
    InvKnown(s);
    hide SyncInv, Links;
    UnblockSafe(s.cpu, w);
    SchedulerOnly(s, Unblock(s.cpu, w).value);
  }

  lemma SpawnKeeps(s: State, n: Tid, prio: nat)
    requires Inv(s) && Enabled(s, Spawn(n, prio))
    ensures Known(s) && Keeps(s, Spawn(n, prio))
  {
    InvKnown(s);
    hide SyncInv, Links;
    StartSafe(s.cpu, n, prio);
    SchedulerOnly(s, Start(s.cpu, n, prio).value);
  }

  lemma AcquireKeeps(s: State, l: LockId)
    requires Inv(s) && Enabled(s, Acquire(l))
    ensures Known(s) && Keeps(s, Acquire(l))
  {
    hide LockInv, NoLostWakeup, DiskInv, WaitersInv, SchedInv, Links;
    InvKnown(s);
    var t, y := s.cpu.cur, s.sync;
    var z := EnterAcquire(y, t, l);
    LockInvs(s, l);
    assert Moves(y, z, t, z.pc(t));
    FrameWakers(y, z, t, z.pc(t), OfLock(l));
    EnterLockInv(y, z, t, l);
    LockStepInv(s, z, z.pc(t), l);
  }

  /** Entering an operation from normal code changes nothing for the lock. */
  lemma EnterLockInv(y: Shared, z: Shared, t: Tid, l: LockId)
    requires LockInv(y, l) && y.pc(t) == Normal
    requires z == EnterAcquire(y, t, l) || (z == EnterRelease(y, t, l) && y.depth(t, l) > 0)
    ensures LockInv(z, l)
    ensures y.depth(t, l) > 0 ==> y.locks(l).holder == Some(t)
  {
    assert y.depth(t, l) > 0 ==> Inside(y, t, l);
    forall u: Tid | Inside(z, u, l) ensures y.locks(l).owner == Some(u) {
      assert Inside(y, u, l);
    }
  }

  lemma ReleaseKeeps(s: State, l: LockId)
    requires Inv(s) && Enabled(s, Release(l))
    ensures Known(s) && Keeps(s, Release(l))
  {
    hide LockInv, NoLostWakeup, DiskInv, WaitersInv, SchedInv, Links;
    InvKnown(s);
    var t, y := s.cpu.cur, s.sync;
    var z := EnterRelease(y, t, l);
    LockInvs(s, l);
    assert Moves(y, z, t, z.pc(t));
    FrameWakers(y, z, t, z.pc(t), OfLock(l));
    EnterLockInv(y, z, t, l);
    LockStepInv(s, z, z.pc(t), l);
  }

  // ---- the fields of the lock

  predicate FieldPc(pc: Pc, l: LockId) {
    pc in {AcqHolder(l), AcqRepeat(l), AcqInc(l), RelDec(l), RelHolder(l), RelRepeat(l)}
  }

  /** The next statement of the owner, from its phase to the next phase, with every ASSERT passed. */
  lemma FieldPhase(y: Shared, t: Tid, l: LockId)
    requires LockInv(y, l) && FieldPc(y.pc(t), l)
    ensures Field(y, t).Ok? && OwnerPhase(Field(y, t).value, t, l)
    ensures y.locks(l).owner == Field(y, t).value.locks(l).owner == Some(t)
    ensures Field(y, t).value.pc(t) in {AcqRepeat(l), RelRepeat(l), RelUp(l), Normal}
    ensures Field(y, t).value.sems == y.sems
  {
    assert Inside(y, t, l);
  }

  lemma FieldOnly(y: Shared, t: Tid, l: LockId)
    requires FieldPc(y.pc(t), l) && Field(y, t).Ok? && Field(y, t).value.locks(l).owner == y.locks(l).owner
    ensures OnlyLock(y, Field(y, t).value, t, Field(y, t).value.pc(t), l)
  {
  }

  lemma FieldLockInv(y: Shared, z: Shared, t: Tid, l: LockId)
    requires LockInv(y, l) && z.sems == y.sems && OnlyLock(y, z, t, z.pc(t), l)
    requires y.locks(l).owner == z.locks(l).owner == Some(t) && OwnerPhase(z, t, l)
    requires z.pc(t) in {AcqRepeat(l), RelRepeat(l), RelUp(l), Normal}
    ensures LockInv(z, l)
  {
    forall u: Tid | Inside(z, u, l) ensures u == t {
      assert u != t ==> Inside(y, u, l);
    }
  }

  lemma FieldKeeps(s: State, l: LockId)
    requires Inv(s) && FieldPc(s.sync.pc(s.cpu.cur), l)
    ensures Known(s) && Keeps(s, Go)
  {
    hide Inv, LockInv, NoLostWakeup;
    InvKnown(s);
    var t, y := s.cpu.cur, s.sync;
    LockInvs(s, l);
    FieldPhase(y, t, l);
    FieldOnly(y, t, l);
    var z := Field(y, t).value;
    FieldInv(s, z, l);
  }

  lemma LockInvs(s: State, l: LockId)
    requires Inv(s)
    ensures LockInv(s.sync, l) && NoLostWakeup(s.sync, OfLock(l))
  {
    hide SchedInv, Links, Exists, LockInv, NoLostWakeup, WaitersInv, DiskInv;
  }

  lemma FieldInv(s: State, z: Shared, l: LockId)
    requires Inv(s) && FieldPc(s.sync.pc(s.cpu.cur), l) && z.sems == s.sync.sems
    requires OnlyLock(s.sync, z, s.cpu.cur, z.pc(s.cpu.cur), l) && OwnerPhase(z, s.cpu.cur, l)
    requires s.sync.locks(l).owner == z.locks(l).owner == Some(s.cpu.cur)
    requires z.pc(s.cpu.cur) in {AcqRepeat(l), RelRepeat(l), RelUp(l), Normal}
    ensures Inv(s.(sync := z))
  {
    var t, y := s.cpu.cur, s.sync;
    assert LockInv(y, l) && NoLostWakeup(y, OfLock(l));
    hide SyncInv, SchedInv, Links;
    FieldLockInv(y, z, t, l);
    FrameWakers(y, z, t, z.pc(t), OfLock(l));
    LockStepInv(s, z, z.pc(t), l);
  }

  // ---- sema_down

  /** A free lock semaphore is taken: its ASSERT holds and the taker is alone. */
  lemma TakeLockInv(y: Shared, t: Tid, l: LockId)
    requires LockInv(y, l) && y.sems(OfLock(l)).value > 0 && y.pc(t).Down?
    ensures y.sems(OfLock(l)).value == 1 && LockInv(Taken(y, t, OfLock(l)), l)
    ensures NoLostWakeup(Taken(y, t, OfLock(l)), OfLock(l))
    ensures y.pc(t).sem == OfLock(l) ==> OnlyLock(y, Taken(y, t, OfLock(l)), t, AcqHolder(l), l)
  {
    var z := Taken(y, t, OfLock(l));
    assert !Inside(y, t, l);
    forall u: Tid | Inside(z, u, l) ensures u == t {
      assert u != t ==> Inside(y, u, l);
    }
  }

  lemma TakeLockKeeps(s: State, l: LockId)
    requires Inv(s) && s.sync.pc(s.cpu.cur).Down? && s.sync.pc(s.cpu.cur).sem == OfLock(l)
    requires s.sync.sems(OfLock(l)).value > 0
    ensures Known(s) && Keeps(s, Go)
  {
    hide LockInv, NoLostWakeup, DiskInv, WaitersInv, SchedInv, Links, OnlyLock;
    InvKnown(s);
    LockInvs(s, l);
    TakeLockInv(s.sync, s.cpu.cur, l);
    LockStepInv(s, Taken(s.sync, s.cpu.cur, OfLock(l)), AcqHolder(l), l);
  }

  /** disk_done is taken: the command of this thread is over. */
  lemma TakeDiskSync(y: Shared, t: Tid, c: nat)
    requires SyncInv(y) && OnDisk(y.pc(t), c) && y.sems(DiskDone(c)).value > 0 && Unqueued(y, t)
    ensures y.sems(DiskDone(c)).value == 1 && SyncInv(Taken(y, t, DiskDone(c)))
  {
    var z := Taken(y, t, DiskDone(c));
    assert DiskInv(y, c);
    forall k ensures LockInv(z, k) {
      FrameLock(y, z, t, Normal, k);
    }
    forall k ensures NoLostWakeup(z, OfLock(k)) {
      FrameWakers(y, z, t, Normal, OfLock(k));
    }
    forall d: nat ensures DiskInv(z, d) {
      TakeDiskInv(y, t, c, d);
    }
    forall m ensures WaitersInv(z, m) {
      FrameWaiters(y, z, t, Normal, m);
    }
  }

  lemma TakeDiskInv(y: Shared, t: Tid, c: nat, d: nat)
    requires DiskInv(y, c) && DiskInv(y, d) && LockInv(y, Channel(c))
    requires OnDisk(y.pc(t), c) && y.sems(DiskDone(c)).value > 0
    ensures DiskInv(Taken(y, t, DiskDone(c)), d)
  {
    if d == c {
      forall u: Tid | OnDisk(y.pc(u), c) ensures u == t {
        assert Inside(y, u, Channel(c)) && Inside(y, t, Channel(c));
      }
    }
  }

  lemma TakeDiskKeeps(s: State, c: nat)
    requires Inv(s) && OnDisk(s.sync.pc(s.cpu.cur), c) && s.sync.sems(DiskDone(c)).value > 0
    ensures Known(s) && Keeps(s, Go)
  {
    InvKnown(s);
    CurrentUnqueued(s);
    TakeDiskSync(s.sync, s.cpu.cur, c);
    var z := Taken(s.sync, s.cpu.cur, DiskDone(c));
    hide SyncInv;
    forall t: Tid, m | z.pc(t) == Down(m, true) && t in s.cpu.status
      ensures Asleep(s.cpu.status[t]) <==> t in z.sems(m).waiters
    {
      assert s.sync.pc(t) == Down(m, true);
    }
  }

  /** Parking on a semaphore of value 0. */
  lemma ParkLock(y: Shared, t: Tid, m: SemId, l: LockId)
    requires LockInv(y, l) && NoLostWakeup(y, OfLock(l))
    requires y.pc(t).Down? && y.pc(t).sem == m && y.sems(m).value == 0
    ensures LockInv(Parked(y, t, m), l) && NoLostWakeup(Parked(y, t, m), OfLock(l))
  {
    var z := Parked(y, t, m);
    forall u: Tid | Inside(z, u, l) ensures y.locks(l).owner == Some(u) {
      assert Inside(y, u, l);
    }
    if m != OfLock(l) {
      FrameWakers(y, z, t, Down(m, true), OfLock(l));
    }
  }

  lemma ParkDisk(y: Shared, t: Tid, m: SemId, c: nat)
    requires DiskInv(y, c) && y.pc(t).Down? && y.pc(t).sem == m && y.sems(m).value == 0
    ensures DiskInv(Parked(y, t, m), c)
  {
  }

  lemma ParkWaiters(y: Shared, t: Tid, m: SemId, n: SemId)
    requires WaitersInv(y, n) && t !in y.sems(n).waiters
    ensures WaitersInv(Parked(y, t, m), n)
  {
  }

  lemma ParkSync(y: Shared, t: Tid, m: SemId)
    requires SyncInv(y) && y.pc(t).Down? && y.pc(t).sem == m && y.sems(m).value == 0 && Unqueued(y, t)
    ensures SyncInv(Parked(y, t, m))
  {
    var z := Parked(y, t, m);
    hide LockInv, DiskInv, WaitersInv, NoLostWakeup, Parked;
    forall l ensures LockInv(z, l) && NoLostWakeup(z, OfLock(l)) {
      ParkLock(y, t, m, l);
    }
    forall c: nat ensures DiskInv(z, c) {
      ParkDisk(y, t, m, c);
    }
    forall n ensures WaitersInv(z, n) {
      ParkWaiters(y, t, m, n);
    }
  }

  lemma ParkLinks(s: State, m: SemId, d: Cpu)
    requires Inv(s) && s.cpu.cur != s.cpu.idle && Unqueued(s.sync, s.cpu.cur) && Typed(d)
    requires d.status.Keys == s.cpu.status.Keys && d.idle == s.cpu.idle
    requires forall t: Tid :: t in d.status && t != d.idle ==>
               (Asleep(d.status[t]) <==> (t == s.cpu.cur || Asleep(s.cpu.status[t])))
    ensures Links(d, Parked(s.sync, s.cpu.cur, m)) && Exists(d, Parked(s.sync, s.cpu.cur, m))
  {
    assert s.cpu.cur in s.cpu.status;
    hide SyncInv, SchedInv;
    var t, z := s.cpu.cur, Parked(s.sync, s.cpu.cur, m);
    forall u: Tid, n | z.pc(u) == Down(n, true) && u in d.status
      ensures Asleep(d.status[u]) <==> u in z.sems(n).waiters
    {
      assert u != t ==> s.sync.pc(u) == Down(n, true);
    }
  }

  lemma NotIdle(s: State)
    requires Inv(s) && s.sync.pc(s.cpu.cur) != Normal
    ensures s.cpu.cur != s.cpu.idle
  {
    hide SchedInv, SyncInv, Links;
  }

  lemma ParkKeeps(s: State, m: SemId)
    requires Inv(s) && s.sync.pc(s.cpu.cur).Down? && s.sync.pc(s.cpu.cur).sem == m && s.sync.sems(m).value == 0
    ensures Known(s) && Keeps(s, Go)
  {
    hide Links, SyncInv, Exists, Block;
    InvKnown(s);
    CurrentUnqueued(s);
    NotIdle(s);
    ParkSync(s.sync, s.cpu.cur, m);
    BlockSleeps(s.cpu, Blocked);
    ParkLinks(s, m, Block(s.cpu, Blocked).value);
  }

  // ---- sema_up

  /** sema_up of a lock by its owner, holder and count already cleared: value 0 becomes 1, its ASSERTs hold. */
  lemma UpLockInv(y: Shared, z: Shared, t: Tid, l: LockId)
    requires LockInv(y, l) && WaitersInv(y, OfLock(l)) && y.pc(t) == RelUp(l)
    requires z == SetSem(Leave(y, t, l), OfLock(l), Raised(y.sems(OfLock(l))))
    ensures y.sems(OfLock(l)).value == 0 && y.locks(l).owner == Some(t)
    ensures LockInv(z, l) && NoLostWakeup(z, OfLock(l)) && WaitersInv(z, OfLock(l))
  {
    assert Inside(y, t, l);
    forall u: Tid | Inside(z, u, l) ensures false {
      assert Inside(y, u, l);
    }
    var w := y.sems(OfLock(l)).waiters;
    if w != [] {
      assert w == [w[0]] + w[1..] && w[0] !in w[1..];
      assert z.pc(w[0]) == Down(OfLock(l), true);
    }
  }

  lemma UpLockSync(y: Shared, z: Shared, t: Tid, l: LockId)
    requires SyncInv(y) && y.pc(t) == RelUp(l) && Unqueued(y, t)
    requires z == SetSem(Leave(y, t, l), OfLock(l), Raised(y.sems(OfLock(l))))
    ensures y.sems(OfLock(l)).value == 0 && SyncInv(z)
  {
    assert LockInv(y, l) && WaitersInv(y, OfLock(l));
    UpLockInv(y, z, t, l);
    assert Moves(y, z, t, Normal);
    hide LockInv, NoLostWakeup, DiskInv, WaitersInv, Moves;
    forall k ensures LockInv(z, k) && NoLostWakeup(z, OfLock(k)) {
      if k != l {
        FrameLock(y, z, t, Normal, k);
        FrameWakers(y, z, t, Normal, OfLock(k));
      }
    }
    forall c: nat ensures DiskInv(z, c) {
      FrameDisk(y, z, t, Normal, c);
    }
    forall m ensures WaitersInv(z, m) {
      if m != OfLock(l) { FrameWaiters(y, z, t, Normal, m); }
    }
  }

  /** Waking the first waiter of a semaphore, on both sides. */
  lemma WakeLinks(s: State, z: Shared, m: SemId)
    requires Inv(s) && s.sync.sems(m).waiters != []
    requires z.sems(m) == Raised(s.sync.sems(m)) && forall n :: n != m ==> z.sems(n) == s.sync.sems(n)
    requires forall t: Tid :: z.pc(t) == s.sync.pc(t) || (t == s.cpu.cur && z.pc(t) == Normal)
    requires forall t: Tid, l :: z.depth(t, l) == s.sync.depth(t, l)
    ensures var w := s.sync.sems(m).waiters[0];
            && w in s.cpu.status && Typed(s.cpu) && Unblock(s.cpu, w).Ok? && SchedInv(Unblock(s.cpu, w).value)
            && Links(Unblock(s.cpu, w).value, z) && Exists(Unblock(s.cpu, w).value, z)
  {
    hide SchedInv, LockInv, NoLostWakeup, DiskInv, Unblock;
    SchedTyped(s.cpu);
    var q := s.sync.sems(m).waiters;
    var w := q[0];
    assert WaitersInv(s.sync, m);
    FirstLeaves(q);
    assert s.sync.pc(w) == Down(m, true);
    UnblockWakes(s.cpu, w);
    var d := Unblock(s.cpu, w).value;
    forall t: Tid, n | z.pc(t) == Down(n, true) && t in d.status
      ensures Asleep(d.status[t]) <==> t in z.sems(n).waiters
    {
      assert s.sync.pc(t) == Down(n, true);
    }
  }

  lemma FirstLeaves(q: seq<Tid>)
    requires q != [] && NoDup(q)
    ensures forall t: Tid :: t in q[1..] <==> t in q && t != q[0]
  {
    assert q == [q[0]] + q[1..];
  }

  lemma UnblockWakes(c: Cpu, w: Tid)
    requires SchedInv(c) && w in c.status && Asleep(c.status[w])
    ensures Unblock(c, w).Ok? && SchedInv(Unblock(c, w).value)
    ensures Unblock(c, w).value.status == c.status[w := Ready] && Unblock(c, w).value.idle == c.idle
  {
    UnblockSafe(c, w);
  }

  /** Raising a semaphore nobody waits for. */
  lemma RaiseLinks(s: State, z: Shared, m: SemId)
    requires Inv(s) && s.sync.sems(m).waiters == []
    requires z.sems(m) == Raised(s.sync.sems(m)) && forall n :: n != m ==> z.sems(n) == s.sync.sems(n)
    requires forall t: Tid :: z.pc(t) == s.sync.pc(t) || (t == s.cpu.cur && z.pc(t) == Normal)
    requires forall t: Tid, l :: z.depth(t, l) == s.sync.depth(t, l)
    ensures Links(s.cpu, z) && Exists(s.cpu, z)
  {
    hide SyncInv, SchedInv;
    forall t: Tid, n | z.pc(t) == Down(n, true) && t in s.cpu.status
      ensures Asleep(s.cpu.status[t]) <==> t in z.sems(n).waiters
    {
      assert s.sync.pc(t) == Down(n, true);
    }
  }

  lemma UpKeeps(s: State, l: LockId)
    requires Inv(s) && s.sync.pc(s.cpu.cur) == RelUp(l)
    ensures Known(s) && Keeps(s, Go)
  {
    hide SyncInv, Links, Exists, SchedInv, Unblock;
    InvKnown(s);
    CurrentUnqueued(s);
    var t, y := s.cpu.cur, s.sync;
    var z := SetSem(Leave(y, t, l), OfLock(l), Raised(y.sems(OfLock(l))));
    UpLockSync(y, z, t, l);
    if y.sems(OfLock(l)).waiters == [] {
      RaiseLinks(s, z, OfLock(l));
    } else {
      WakeLinks(s, z, OfLock(l));
    }
  }

  // ---- the disk

  /** The driver issues a command: none was outstanding, because it alone holds the channel. */
  lemma IssueDisk(y: Shared, t: Tid, c: nat, d: nat)
    requires DiskInv(y, c) && DiskInv(y, d) && LockInv(y, Channel(c))
    requires y.pc(t) == Normal && y.depth(t, Channel(c)) > 0
    ensures !y.expecting(c) && y.sems(DiskDone(c)).value == 0
    ensures DiskInv(At(Expect(y, c, true), t, Down(DiskDone(c), false)), d)
  {
    assert Inside(y, t, Channel(c));
  }

  lemma IssueSync(y: Shared, z: Shared, t: Tid, c: nat)
    requires SyncInv(y) && y.pc(t) == Normal && y.depth(t, Channel(c)) > 0 && Unqueued(y, t)
    requires z == At(Expect(y, c, true), t, Down(DiskDone(c), false))
    ensures SyncInv(z)
  {
    assert Moves(y, z, t, Down(DiskDone(c), false));
    assert LockInv(y, Channel(c)) && DiskInv(y, c);
    forall d: nat ensures DiskInv(z, d) {
      IssueDisk(y, t, c, d);
    }
    hide LockInv, NoLostWakeup, DiskInv, WaitersInv, Moves;
    forall k ensures LockInv(z, k) && NoLostWakeup(z, OfLock(k)) {
      FrameLock(y, z, t, Down(DiskDone(c), false), k);
      FrameWakers(y, z, t, Down(DiskDone(c), false), OfLock(k));
    }
    forall m ensures WaitersInv(z, m) {
      FrameWaiters(y, z, t, Down(DiskDone(c), false), m);
    }
  }

  lemma IssueKeeps(s: State, c: nat)
    requires Inv(s) && Enabled(s, Issue(c))
    ensures Known(s) && Keeps(s, Issue(c))
  {
    InvKnown(s);
    CurrentUnqueued(s);
    var t, y := s.cpu.cur, s.sync;
    var z := At(Expect(y, c, true), t, Down(DiskDone(c), false));
    IssueSync(y, z, t, c);
    hide SyncInv;
    forall u: Tid, m | z.pc(u) == Down(m, true) && u in s.cpu.status
      ensures Asleep(s.cpu.status[u]) <==> u in z.sems(m).waiters
    {
      assert y.pc(u) == Down(m, true);
    }
  }

  /** The interrupt ends the one outstanding command; the ASSERTs of its sema_up hold and no waiter is left. */
  lemma IntrDisk(y: Shared, c: nat)
    requires DiskInv(y, c) && y.expecting(c) && LockInv(y, Channel(c)) && WaitersInv(y, DiskDone(c))
    ensures y.sems(DiskDone(c)).value == 0
    ensures DiskInv(SetSem(Expect(y, c, false), DiskDone(c), Raised(y.sems(DiskDone(c)))), c)
    ensures WaitersInv(SetSem(Expect(y, c, false), DiskDone(c), Raised(y.sems(DiskDone(c)))), DiskDone(c))
  {
    var q := y.sems(DiskDone(c)).waiters;
    forall u: Tid | u in q ensures y.locks(Channel(c)).owner == Some(u) {
      assert OnDisk(y.pc(u), c) && Inside(y, u, Channel(c));
    }
    var i := if |q| > 1 then 1 else 0;
    assert q != [] ==> q[0] in q && q[i] in q && q[0] == q[i];
    assert i == 0;
  }

  lemma IntrSync(y: Shared, z: Shared, c: nat)
    requires SyncInv(y) && y.expecting(c)
    requires z == SetSem(Expect(y, c, false), DiskDone(c), Raised(y.sems(DiskDone(c))))
    ensures y.sems(DiskDone(c)).value == 0 && SyncInv(z)
  {
    assert DiskInv(y, c) && LockInv(y, Channel(c)) && WaitersInv(y, DiskDone(c));
    IntrDisk(y, c);
    assert Moves(y, z, 0, y.pc(0));
    forall k ensures LockInv(z, k) {
      assert LockInv(y, k);
      forall t: Tid | Inside(z, t, k) ensures y.locks(k).owner == Some(t) {
        assert Inside(y, t, k);
      }
    }
    forall k ensures NoLostWakeup(z, OfLock(k)) {
      assert NoLostWakeup(y, OfLock(k));
      IntrWakers(y, z, OfLock(k));
    }
    forall d: nat ensures DiskInv(z, d) {
      assert DiskInv(y, d);
    }
    forall m ensures WaitersInv(z, m) {
      assert WaitersInv(y, m);
    }
  }

  lemma IntrWakers(y: Shared, z: Shared, m: SemId)
    requires NoLostWakeup(y, m) && z.pc == y.pc && z.sems(m) == y.sems(m)
    ensures NoLostWakeup(z, m)
  {
    if y.sems(m).value > 0 && y.sems(m).waiters != [] {
      var t: Tid :| y.pc(t) == Down(m, true) && t !in y.sems(m).waiters;
      assert z.pc(t) == Down(m, true);
    }
  }

  lemma IntrKeeps(s: State, c: nat)
    requires Inv(s) && Enabled(s, Intr(c))
    ensures Known(s) && Keeps(s, Intr(c))
  {
    InvKnown(s);
    var y := s.sync;
    if y.expecting(c) {
      var z := SetSem(Expect(y, c, false), DiskDone(c), Raised(y.sems(DiskDone(c))));
      IntrSync(y, z, c);
      if y.sems(DiskDone(c)).waiters == [] {
        RaiseLinks(s, z, DiskDone(c));
      } else {
        WakeLinks(s, z, DiskDone(c));
      }
      hide SyncInv, Links, Exists, SchedInv;
    }
  }

  // ---------------------------------------------------------------- whole runs

  /** Every step of every interleaving keeps the invariant, and no ASSERT on its way fires. */
  lemma StepSafe(s: State, a: Action)
    requires Inv(s) && Enabled(s, a)
    ensures Known(s) && Keeps(s, a)
  {
    match a {
      case Timer => TimerKeeps(s);
      case Intr(c) => IntrKeeps(s, c);
      case GiveUp => GiveUpKeeps(s);
      case Spawn(n, prio) => SpawnKeeps(s, n, prio);
      case Sleep(stat) => SleepKeeps(s, stat);
      case Wake(w) => WakeKeeps(s, w);
      case Acquire(l) => AcquireKeeps(s, l);
      case Release(l) => ReleaseKeeps(s, l);
      case Issue(c) => IssueKeeps(s, c);
      case Go => GoSafe(s);
    }
  }

  lemma GoSafe(s: State)
    requires Inv(s) && Enabled(s, Go)
    ensures Known(s) && Keeps(s, Go)
  {
    hide Inv, Keeps;
    var pc := s.sync.pc(s.cpu.cur);
    match pc {
      case Down(m, _) =>
        if s.sync.sems(m).value == 0 {
          ParkKeeps(s, m);
        } else {
          match m {
            case OfLock(l) => TakeLockKeeps(s, l);
            case DiskDone(c) => TakeDiskKeeps(s, c);
          }
        }
      case RelUp(l) => UpKeeps(s, l);
      case AcqHolder(l) => FieldKeeps(s, l);
      case AcqRepeat(l) => FieldKeeps(s, l);
      case AcqInc(l) => FieldKeeps(s, l);
      case RelDec(l) => FieldKeeps(s, l);
      case RelHolder(l) => FieldKeeps(s, l);
      case RelRepeat(l) => FieldKeeps(s, l);
    }
  }

  /** After thread_init: main runs, the other tasks are ready, all locks are free and no disk works. */
  ghost predicate Init(s: State) {
    && SchedInv(s.cpu)
    && (forall t: Tid :: s.sync.pc(t) == Normal)
    && (forall t: Tid, l :: s.sync.depth(t, l) == 0)
    && (forall l :: s.sync.locks(l) == Lock(None, 0, None) && s.sync.sems(OfLock(l)) == Sem(1, []))
    && (forall c: nat :: s.sync.sems(DiskDone(c)) == Sem(0, []) && !s.sync.expecting(c))
  }

  /**
   * thread_init leaves such a state: main runs, init and idle wait on the ready list, and no lock or channel is in use.
   */
  lemma AfterThreadInit(main: Tid, init: Tid, idle: Tid, prio: map<Tid, nat>) returns (s: State)
    requires main != idle && main != init && init != idle && prio.Keys == {main, init, idle}
    ensures Init(s) && s.cpu.cur == main && s.cpu.ready == [init, idle]
  {
    var cpu := Cpu(main, idle, map[main := Running, init := Ready, idle := Ready], prio, prio, [init, idle]);
    var sync := Shared((t: Tid) => Normal, (t: Tid, l: LockId) => 0,
                       (m: SemId) => if m.OfLock? then Sem(1, []) else Sem(0, []),
                       (l: LockId) => Lock(None, 0, None), (c: nat) => false);
    s := State(cpu, sync);
  }

  lemma InitInv(s: State)
    requires Init(s)
    ensures Inv(s)
  {
    var y := s.sync;
    forall m ensures WaitersInv(y, m) {
      match m { case OfLock(l) => case DiskDone(c) => }
    }
    forall l ensures LockInv(y, l) {
      forall t: Tid ensures !Inside(y, t, l) {
      }
    }
  }

  /** A run: states linked by enabled actions, none of which ended in a failed ASSERT. */
  ghost predicate Run(ss: seq<State>, aa: seq<Action>) {
    && |ss| == |aa| + 1
    && Init(ss[0])
    && forall i :: 0 <= i < |aa| ==> Known(ss[i]) && Enabled(ss[i], aa[i]) && Step(ss[i], aa[i]) == Ok(ss[i + 1])
  }

  lemma {:induction false} RunInv(ss: seq<State>, aa: seq<Action>, i: nat)
    requires Run(ss, aa) && i < |ss|
    ensures Inv(ss[i])
  {
    if i == 0 {
      InitInv(ss[0]);
    } else {
      RunInv(ss, aa, i - 1);
      StepSafe(ss[i - 1], aa[i - 1]);
    }
  }

  /** No interleaving of any length reaches a failing ASSERT. */
  lemma NoPanic(ss: seq<State>, aa: seq<Action>, a: Action)
    requires Run(ss, aa)
    requires Enabled(ss[|aa|], a)
    ensures Known(ss[|aa|]) && Step(ss[|aa|], a).Ok?
  {
    RunInv(ss, aa, |aa|);
    StepSafe(ss[|aa|], a);
  }

  /** Mutual exclusion, and holder_repeat_nr as the nesting depth, in every reachable state. */
  lemma MutualExclusion(ss: seq<State>, aa: seq<Action>, i: nat, l: LockId, t: Tid, u: Tid)
    requires Run(ss, aa) && i < |ss|
    ensures Inside(ss[i].sync, t, l) && Inside(ss[i].sync, u, l) ==> t == u
    ensures ss[i].sync.depth(t, l) > 0 && ss[i].sync.pc(t) == Normal
            ==> ss[i].sync.locks(l).holder == Some(t) && ss[i].sync.locks(l).repeat == ss[i].sync.depth(t, l)
    ensures ss[i].sync.sems(OfLock(l)).value in {0, 1}
    ensures ss[i].sync.sems(OfLock(l)).value == 1 <==> forall v: Tid :: !Inside(ss[i].sync, v, l)
    ensures NoLostWakeup(ss[i].sync, OfLock(l))
  {
    RunInv(ss, aa, i);
    var y := ss[i].sync;
    assert LockInv(y, l) && NoLostWakeup(y, OfLock(l));
    assert y.locks(l).owner.Some? ==> Inside(y, y.locks(l).owner.value, l);
    assert y.depth(t, l) > 0 ==> Inside(y, t, l);
  }

  /** One RUNNING task; READY is the ready list; all the lists that share general_tag are disjoint. */
  lemma ListsDisjoint(ss: seq<State>, aa: seq<Action>, i: nat)
    requires Run(ss, aa) && i < |ss|
    ensures var c, y := ss[i].cpu, ss[i].sync;
            && c.cur in c.status && (forall t :: t in c.status ==> (c.status[t] == Running <==> t == c.cur))
            && NoDup(c.ready) && (forall t :: t in c.status ==> (c.status[t] == Ready <==> t in c.ready))
            && (forall m :: NoDup(y.sems(m).waiters))
            && (forall m, t: Tid :: t in y.sems(m).waiters ==> t !in c.ready && t != c.cur)
            && (forall m, n, t: Tid :: t in y.sems(m).waiters && t in y.sems(n).waiters ==> m == n)
  {
    hide Run, LockInv, NoLostWakeup, DiskInv;
    RunInv(ss, aa, i);
    InvKnown(ss[i]);
    var c, y := ss[i].cpu, ss[i].sync;
    forall m ensures NoDup(y.sems(m).waiters) {
      assert WaitersInv(y, m);
    }
    forall m, t: Tid | t in y.sems(m).waiters ensures y.pc(t) == Down(m, true) && t !in c.ready && t != c.cur {
      assert WaitersInv(y, m);
      assert t in c.status && Asleep(c.status[t]);
    }
    forall m, n, t: Tid | t in y.sems(m).waiters && t in y.sems(n).waiters ensures m == n {
      assert y.pc(t) == Down(m, true) && y.pc(t) == Down(n, true);
    }
  }

  /** The disk handshake: an expected interrupt always finds disk_done at 0, and one driver waiting for it. */
  lemma DiskHandshake(ss: seq<State>, aa: seq<Action>, i: nat, c: nat, t: Tid, u: Tid)
    requires Run(ss, aa) && i < |ss|
    ensures ss[i].sync.expecting(c) ==> ss[i].sync.sems(DiskDone(c)).value == 0
    ensures OnDisk(ss[i].sync.pc(t), c) && OnDisk(ss[i].sync.pc(u), c) ==> t == u
    ensures ss[i].sync.sems(DiskDone(c)).waiters != [] ==> ss[i].sync.expecting(c)
  {
    RunInv(ss, aa, i);
    var y := ss[i].sync;
    assert DiskInv(y, c) && LockInv(y, Channel(c));
    assert OnDisk(y.pc(t), c) ==> Inside(y, t, Channel(c));
    assert OnDisk(y.pc(u), c) ==> Inside(y, u, Channel(c));
  }

  // ---------------------------------------------------------------- bounded waiting

  /** Actions that put a task in front of the ready list. */
  ghost predicate Unblocks(s: State, a: Action) {
    || a.Wake?
    || (a.Intr? && s.sync.expecting(a.chan) && s.sync.sems(DiskDone(a.chan)).waiters != [])
    || (a.Go? && s.sync.pc(s.cpu.cur).RelUp? && s.sync.sems(OfLock(s.sync.pc(s.cpu.cur).l)).waiters != [])
  }

  function TimerTicks(aa: seq<Action>): nat {
    if aa == [] then 0 else TimerTicks(aa[..|aa| - 1]) + if aa[|aa| - 1].Timer? then 1 else 0
  }

  ghost predicate IndexOf(c: Cpu, t: Tid, k: nat) {
    k < |c.ready| && c.ready[k] == t
  }

  /** Any step either runs the waiting task or keeps it queued with a bound no larger, smaller after a tick. */
  lemma WaitStep(s: State, a: Action, r: State, t: Tid, k: nat)
    requires Inv(s) && Known(s) && Enabled(s, a) && Step(s, a) == Ok(r) && !Unblocks(s, a) && IndexOf(s.cpu, t, k)
    ensures Inv(r)
    ensures r.cpu.cur == t || exists j: nat ::
              IndexOf(r.cpu, t, j) && Wait(r.cpu, j) + (if a.Timer? then 1 else 0) <= Wait(s.cpu, k)
  {
    StepSafe(s, a);
    var c, d := s.cpu, r.cpu;
    hide SyncInv, Links, Exists;
    if d == c {
      assert IndexOf(d, t, k);
    } else {
      CpuChange(s, a, r);
      WaitCpu(c, a, d, t, k);
    }
  }

  /** What a step that unblocks nobody may do to the scheduler. */
  ghost predicate CpuMove(c: Cpu, a: Action, d: Cpu)
    requires Typed(c)
  {
    || (a.Timer? && TimerTick(c) == Ok(d))
    || (a.GiveUp? && Yield(c) == Ok(d))
    || (a.Spawn? && a.tid !in c.status && Start(c, a.tid, a.prio) == Ok(d))
    || (a.Sleep? && Block(c, a.stat) == Ok(d))
    || (a.Go? && Block(c, Blocked) == Ok(d))
  }

  lemma CpuChange(s: State, a: Action, r: State)
    requires Known(s) && Enabled(s, a) && Step(s, a) == Ok(r) && !Unblocks(s, a) && r.cpu != s.cpu
    ensures CpuMove(s.cpu, a, r.cpu)
  {
    hide Schedule, Block, Yield, Start, TimerTick, Unblock;
  }

  lemma WaitCpu(c: Cpu, a: Action, d: Cpu, t: Tid, k: nat)
    requires SchedInv(c) && CpuMove(c, a, d) && IndexOf(c, t, k)
    ensures d.cur == t || exists j: nat ::
              Typed(d) && IndexOf(d, t, j) && Wait(d, j) + (if a.Timer? then 1 else 0) <= Wait(c, k)
  {
    hide Schedule, Wait;
    match a {
      case Timer => WaitTimer(c, d, t, k);
      case Spawn(n, prio) => WaitSpawn(c, n, prio, d, t, k);
      case GiveUp => WaitYield(c, d, t, k);
      case Sleep(stat) => WaitBlock(c, stat, d, t, k);
      case Go => WaitBlock(c, Blocked, d, t, k);
      case _ =>
    }
  }

  lemma WaitSpawn(c: Cpu, n: Tid, prio: nat, d: Cpu, t: Tid, k: nat)
    requires SchedInv(c) && n !in c.status && Start(c, n, prio) == Ok(d) && IndexOf(c, t, k)
    ensures IndexOf(d, t, k) && Wait(d, k) == Wait(c, k)
  {
    SlicesSame(c, d, k);
  }

  lemma WaitYield(c: Cpu, d: Cpu, t: Tid, k: nat)
    requires SchedInv(c) && Yield(c) == Ok(d) && IndexOf(c, t, k)
    ensures d.cur == t || exists j: nat :: IndexOf(d, t, j) && Wait(d, j) <= Wait(c, k)
  {
    Reschedule(c, c.(ready := c.ready + [c.cur], status := c.status[c.cur := Ready]), d, t, k);
  }

  lemma WaitBlock(c: Cpu, stat: Status, d: Cpu, t: Tid, k: nat)
    requires SchedInv(c) && Block(c, stat) == Ok(d) && IndexOf(c, t, k)
    ensures d.cur == t || exists j: nat :: IndexOf(d, t, j) && Wait(d, j) <= Wait(c, k)
  {
    Reschedule(c, c.(status := c.status[c.cur := stat]), d, t, k);
  }

  lemma WaitTimer(c: Cpu, d: Cpu, t: Tid, k: nat)
    requires SchedInv(c) && TimerTick(c) == Ok(d) && IndexOf(c, t, k)
    ensures d.cur == t || exists j: nat :: IndexOf(d, t, j) && Wait(d, j) + 1 <= Wait(c, k)
  {
    if c.ticks[c.cur] == 0 {
      ScheduleProgress(c, k);
      assert k > 0 ==> IndexOf(d, t, k - 1);
    } else {
      SlicesSame(c, d, k);
      assert IndexOf(d, t, k);
    }
  }

  lemma Reschedule(c: Cpu, b: Cpu, d: Cpu, t: Tid, k: nat)
    requires SchedInv(c) && IndexOf(c, t, k) && Queued(b) && Schedule(b) == Ok(d)
    requires b.cur == c.cur && b.ticks == c.ticks && c.ready <= b.ready
    ensures d.cur == t || exists j: nat :: IndexOf(d, t, j) && Wait(d, j) <= Wait(c, k)
  {
    ScheduleProgress(b, k);
    SlicesSame(c, b, k);
    if k > 0 {
      assert IndexOf(d, t, k - 1);
    }
  }

  /** A run in which nobody is unblocked and `t` does not get the processor. */
  ghost predicate Passes(ss: seq<State>, aa: seq<Action>, t: Tid) {
    && |ss| == |aa| + 1
    && (forall i :: 0 <= i < |aa| ==>
          Known(ss[i]) && Enabled(ss[i], aa[i]) && Step(ss[i], aa[i]) == Ok(ss[i + 1]) && !Unblocks(ss[i], aa[i]))
    && (forall i :: 0 <= i < |ss| ==> ss[i].cpu.cur != t)
  }

  lemma PassStep(ss: seq<State>, aa: seq<Action>, t: Tid, i: nat)
    requires Passes(ss, aa, t) && i < |aa|
    ensures Known(ss[i]) && Enabled(ss[i], aa[i]) && Step(ss[i], aa[i]) == Ok(ss[i + 1]) && !Unblocks(ss[i], aa[i])
    ensures ss[i + 1].cpu.cur != t
  {
    hide Known, Enabled, Step, Unblocks;
  }

  lemma {:induction false} WaitsSoFar(ss: seq<State>, aa: seq<Action>, t: Tid, k: nat, i: nat)
    requires |ss| == |aa| + 1 && Inv(ss[0]) && IndexOf(ss[0].cpu, t, k) && i <= |aa| && Passes(ss, aa, t)
    ensures Inv(ss[i]) && exists j: nat ::
              IndexOf(ss[i].cpu, t, j) && Wait(ss[i].cpu, j) + TimerTicks(aa[..i]) <= Wait(ss[0].cpu, k)
  {
    hide SyncInv, Links, Exists, Known, Enabled, Step, Unblocks, Wait, Passes;
    if i == 0 {
      assert IndexOf(ss[0].cpu, t, k);
    } else {
      var n := i - 1;
      WaitsSoFar(ss, aa, t, k, n);
      var j: nat :| IndexOf(ss[n].cpu, t, j) && Wait(ss[n].cpu, j) + TimerTicks(aa[..n]) <= Wait(ss[0].cpu, k);
      PassStep(ss, aa, t, n);
      WaitStep(ss[n], aa[n], ss[i], t, j);
      assert aa[..i][..n] == aa[..n];
    }
  }

  /**
   * A ready task at index k that has not been run yet has seen fewer timer ticks than its bound, whatever
   * yields, blocks and new threads happened meanwhile: at the latest at that tick it gets the processor.
   */
  lemma BoundedWaiting(ss: seq<State>, aa: seq<Action>, t: Tid, k: nat)
    requires |ss| == |aa| + 1 && Inv(ss[0]) && IndexOf(ss[0].cpu, t, k) && Passes(ss, aa, t)
    ensures Inv(ss[|aa|]) && TimerTicks(aa) < Wait(ss[0].cpu, k)
    ensures exists j: nat :: IndexOf(ss[|aa|].cpu, t, j) && Wait(ss[|aa|].cpu, j) + TimerTicks(aa) <= Wait(ss[0].cpu, k)
  {
    hide SyncInv, SchedInv, Links, Exists, Known, Enabled, Step, Unblocks, Passes;
    WaitsSoFar(ss, aa, t, k, |aa|);
    assert aa[..|aa|] == aa;
  }
}
