// thread/thread.c, device/timer.c and thread/sync.c on the linked lists the kernel really uses: every task has
// one general_tag, which is a node of the ready list or of one waiters list.  Each ASSERT is an assertion here.

module ThreadLists {
  import opened IntrusiveLists
  import opened Threads

  /** struct semaphore */
  class Semaphore {
    var value: nat
    const waiters: List

    /** sema_init */
    constructor (value: nat)
      ensures this.value == value && waiters.Holds([])
      ensures fresh(waiters.head) && fresh(waiters.tail)
    {
      this.value := value;
      waiters := new List();
    }
  }

  /** The scheduler's globals.  `ready` is the abstract content of thread_ready_list. */
  class Scheduler {
    var cur: Tid
    const idle: Tid
    var status: map<Tid, Status>
    var ticks: map<Tid, nat>
    var priority: map<Tid, nat>
    const tags: map<Tid, ListElem>
    const readyList: List
    ghost var ready: seq<Tid>

    /** The tags of every task that will ever be started; node t is embedded in task t. */
    constructor (tags: map<Tid, ListElem>, idle: Tid)
      requires forall t :: t in tags ==> tags[t].owner == t
      ensures this.tags == tags && this.idle == idle && ready == []
      ensures fresh(readyList.head) && fresh(readyList.tail) && ListOk()
    {
      this.tags := tags;
      this.idle := idle;
      readyList := new List();
      ready := [];
      new;
      assert Tags([]) == [];
    }

    ghost function View(): Cpu
      reads this
    {
      Cpu(cur, idle, status, ticks, priority, ready)
    }

    ghost predicate Tagged(ts: seq<Tid>) {
      forall t :: t in ts ==> t in tags && tags[t].owner == t
    }

    /** The general_tag nodes of some tasks. */
    ghost function Tags(ts: seq<Tid>): (s: seq<ListElem>)
      requires Tagged(ts)
    {
      seq(|ts|, i requires 0 <= i < |ts| => tags[ts[i]])
    }

    /** The ready list holds the tags of `ready`. */
    ghost predicate ListOk()
      reads this`ready, Nodes(readyList, ready)
    {
      && (forall t :: t in tags ==> tags[t].owner == t && tags[t] != readyList.head && tags[t] != readyList.tail)
      && (forall t :: t in ready ==> t in tags)
      && readyList.Holds(Tags(ready))
    }

    ghost predicate Valid()
      reads this, Nodes(readyList, ready)
    {
      ListOk() && Typed(View()) && status.Keys <= tags.Keys
    }

    /** The nodes a change at either end of a list of tasks may touch. */
    ghost function Nodes(l: List, ts: seq<Tid>): set<ListElem> {
      {l.head, l.tail} + set t | t in ts && t in tags :: tags[t]
    }

    lemma NodesOf(l: List, ts: seq<Tid>, t: Tid)
      requires t in tags
      ensures Nodes(l, ts + [t]) == Nodes(l, [t] + ts) == Nodes(l, ts) + {tags[t]}
      ensures ts != [] ==> Nodes(l, ts[1..]) <= Nodes(l, ts)
    {
    }

    /** elem_find, list_append on the ready list */
    method AppendReady(t: Tid)
      requires ListOk() && t in tags && t !in ready
      modifies this`ready, Nodes(readyList, ready), tags[t]
      ensures ListOk() && ready == old(ready) + [t]
      ensures Nodes(readyList, ready) == old(Nodes(readyList, ready)) + {tags[t]}
    {
      hide List.Holds;
      NodesOf(readyList, ready, t);
      NotIn(readyList, ready, t);
      var found := readyList.Find(tags[t], Tags(ready));
      assert !found;
      InNodes(readyList, ready);
      readyList.Append(tags[t], Tags(ready));
      assert Tags(ready + [t]) == Tags(ready) + [tags[t]];
      ready := ready + [t];
    }

    lemma NotIn(l: List, ts: seq<Tid>, t: Tid)
      requires Tagged(ts) && t in tags && t !in ts && tags[t].owner == t && tags[t] != l.head && tags[t] != l.tail
      ensures tags[t] !in l.Chain(Tags(ts))
    {
      forall i | 0 <= i < |ts| ensures Tags(ts)[i] != tags[t] {
        assert Tags(ts)[i].owner == ts[i];
      }
    }

    lemma InNodes(l: List, ts: seq<Tid>)
      requires Tagged(ts)
      ensures forall i :: 0 <= i < |ts| + 2 ==> l.Chain(Tags(ts))[i] in Nodes(l, ts)
    {
      forall i | 0 <= i < |ts| + 2 ensures l.Chain(Tags(ts))[i] in Nodes(l, ts) {
        if 1 <= i <= |ts| {
          assert l.Chain(Tags(ts))[i] == tags[ts[i - 1]] && ts[i - 1] in ts;
        }
      }
    }

    /** elem_find, list_push on the ready list */
    method PushReady(t: Tid)
      requires ListOk() && t in tags && t !in ready
      modifies this`ready, Nodes(readyList, ready), tags[t]
      ensures ListOk() && ready == [t] + old(ready)
      ensures Nodes(readyList, ready) == old(Nodes(readyList, ready)) + {tags[t]}
    {
      hide List.Holds;
      NodesOf(readyList, ready, t);
      NotIn(readyList, ready, t);
      var found := readyList.Find(tags[t], Tags(ready));
      assert !found;
      InNodes(readyList, ready);
      readyList.Push(tags[t], Tags(ready));
      assert Tags([t] + ready) == [tags[t]] + Tags(ready);
      ready := [t] + ready;
    }

    /** list_pop on the ready list and elem2entry */
    method PopReady() returns (t: Tid)
      requires ListOk() && ready != []
      modifies this`ready, Nodes(readyList, ready)
      ensures ListOk() && t == old(ready)[0] && ready == old(ready)[1..]
      ensures Nodes(readyList, ready) <= old(Nodes(readyList, ready))
    {
      NodesOf(readyList, ready, ready[0]);
      InNodes(readyList, ready);
      var tag := readyList.Pop(Tags(ready));
      assert Tags(ready[1..]) == Tags(ready)[1..];
      t := tag.owner;
      ready := ready[1..];
    }

    method ReadyEmpty() returns (empty: bool)
      requires ListOk()
      ensures empty <==> ready == []
    {
      empty := readyList.Empty(Tags(ready));
    }

    /** thread_unblock */
    method ThreadUnblock(t: Tid)
      requires Valid() && t in status && Unblock(View(), t).Ok?
      modifies this`ready, this`status, Nodes(readyList, ready), tags[t]
      ensures Valid() && Unblock(old(View()), t) == Ok(View())
      ensures Nodes(readyList, ready) == old(Nodes(readyList, ready)) + {tags[t]}
    {
      hide ListOk, Nodes;
      assert Asleep(status[t]);
      if status[t] != Ready {
        PushReady(t);
        status := status[t := Ready];
      }
    }

    /** The first branch of schedule. */
    method PutBackCurrent()
      requires Valid() && (status[cur] == Running ==> cur !in ready)
      modifies this`ready, this`status, this`ticks, Nodes(readyList, ready)
      modifies if status[cur] == Running then {tags[cur]} else {}
      ensures Valid() && View() == PutBack(old(View()))
      ensures Nodes(readyList, ready) ==
              old(Nodes(readyList, ready) + if status[cur] == Running then {tags[cur]} else {})
    {
      hide ListOk, Nodes;
      if status[cur] == Running {
        AppendReady(cur);
        ticks := ticks[cur := priority[cur]];
        status := status[cur := Ready];
      }
    }

    /** The end of schedule. */
    method DispatchNext()
      requires Valid() && ready != []
      modifies this`cur, this`ready, this`status, Nodes(readyList, ready)
      ensures Valid() && View() == Dispatch(old(View()))
    {
      hide ListOk, Nodes;
      var next := PopReady();
      assert next in status;
      status := status[next := Running];
      cur := next;
    }

    /** schedule */
    method DoSchedule()
      requires Valid() && Queued(View())
      modifies this`cur, this`ready, this`status, this`ticks, Nodes(readyList, ready), tags[idle]
      modifies if status[cur] == Running then {tags[cur]} else {}
      ensures Valid() && Schedule(old(View())) == Ok(View())
    {
      hide List.Holds;
      ScheduleSteps(View());
      PutBackCurrent();
      WakeIdle();
      DispatchNext();
    }

    /** The middle of schedule: idle is woken when nothing is ready. */
    method WakeIdle()
      requires Valid() && (ready == [] ==> Unblock(View(), idle).Ok?)
      modifies this`ready, this`status, Nodes(readyList, ready), tags[idle]
      ensures Valid() && ready != []
      ensures old(ready) != [] ==> View() == old(View())
      ensures old(ready) == [] ==> Unblock(old(View()), idle) == Ok(View())
      ensures Nodes(readyList, ready) <= old(Nodes(readyList, ready)) + {tags[idle]}
    {
      hide ListOk;
      var empty := ReadyEmpty();
      if empty {
        ThreadUnblock(idle);
      }
      empty := ReadyEmpty();
      assert !empty;
    }

    /** thread_block */
    method ThreadBlock(stat: Status)
      requires Valid() && SchedInv(View()) && Asleep(stat)
      modifies this`cur, this`ready, this`status, this`ticks, Nodes(readyList, ready), tags[idle]
      ensures Valid() && SchedInv(View())
      ensures Block(old(View()), stat) == Ok(View())
    {
      hide SchedInv, Queued, ListOk, Schedule;
      BlockSafe(View(), stat);
      status := status[cur := stat];
      DoSchedule();
    }

    /** thread_yield */
    method ThreadYield()
      requires Valid() && SchedInv(View())
      modifies this`cur, this`ready, this`status, this`ticks, Nodes(readyList, ready), tags[cur], tags[idle]
      ensures Valid() && SchedInv(View())
      ensures Yield(old(View())) == Ok(View())
    {
      hide List.Holds;
      YieldSafe(View());
      QueueCurrent();
      DoSchedule();
    }

    /** The first lines of thread_yield. */
    method QueueCurrent()
      requires Valid() && SchedInv(View())
      modifies this`ready, this`status, Nodes(readyList, ready), tags[cur]
      ensures Valid() && Queued(View()) && status[cur] == Ready
      ensures View() == old(View()).(ready := old(ready) + [cur], status := old(status)[cur := Ready])
      ensures Nodes(readyList, ready) == old(Nodes(readyList, ready)) + {tags[cur]}
    {
      hide ListOk, SchedInv, Queued;
      CurrentFree(View());
      YieldQueued(View());
      AppendReady(cur);
      status := status[cur := Ready];
    }

    /** intr_timer_handler */
    method TimerInterrupt()
      requires Valid() && SchedInv(View())
      modifies this`cur, this`ready, this`status, this`ticks, Nodes(readyList, ready), tags[cur], tags[idle]
      ensures Valid() && SchedInv(View())
      ensures TimerTick(old(View())) == Ok(View())
    {
      hide SchedInv, Queued, ListOk, Schedule;
      CurrentFree(View());
      TimerSafe(View());
      if ticks[cur] == 0 {
        DoSchedule();
      } else {
        ticks := ticks[cur := ticks[cur] - 1];
      }
    }

    /** thread_start */
    method ThreadStart(t: Tid, prio: nat)
      requires Valid() && SchedInv(View()) && t in tags && t !in status
      modifies this`ready, this`status, this`ticks, this`priority, Nodes(readyList, ready), tags[t]
      ensures Valid() && SchedInv(View())
      ensures Start(old(View()), t, prio) == Ok(View())
    {
      hide SchedInv, ListOk, Typed, List.Holds;
      StartSafe(View(), t, prio);
      AppendReady(t);
      status := status[t := Ready];
      ticks := ticks[t := prio];
      priority := priority[t := prio];
    }

    // ---------------------------------------------------------------- semaphores

    /** A waiters list that holds exactly the tags of the sleeping tasks `w`. */
    ghost predicate WaitList(l: List, w: seq<Tid>)
      reads Nodes(l, w)
    {
      && (forall t :: t in w ==> t in tags)
      && (forall t :: t in tags ==> tags[t].owner == t && tags[t] != l.head && tags[t] != l.tail)
      && {l.head, l.tail} !! {readyList.head, readyList.tail}
      && l.Holds(Tags(w))
    }

    ghost predicate Sleepers(w: seq<Tid>)
      reads this
    {
      NoDup(w) && forall t :: t in w ==> t in status && Asleep(status[t]) && t != idle
    }

    /** Waiters and ready tasks share no node. */
    lemma Disjoint(l: List, w: seq<Tid>)
      requires Valid() && SchedInv(View()) && WaitList(l, w) && Sleepers(w)
      ensures Nodes(l, w) !! Nodes(readyList, ready) + {tags[cur], tags[idle]}
    {
      forall t, u | t in w && u in tags && (u in ready || u == cur || u == idle) ensures tags[t] != tags[u] {
        assert tags[t].owner == t && tags[u].owner == u && t != u;
      }
    }

    /**
     * sema_down from cli to its end or to the block: the node of the current task is on no list when it is
     * appended to the waiters.
     */
    method SemaDown(s: Semaphore, ghost w: seq<Tid>) returns (taken: bool)
      requires Valid() && SchedInv(View()) && cur != idle && s.value <= 1
      requires WaitList(s.waiters, w) && Sleepers(w)
      modifies this`cur, this`ready, this`status, this`ticks, s`value,
               Nodes(readyList, ready), tags[cur], tags[idle], Nodes(s.waiters, w)
      ensures taken <==> old(s.value) == 1
      ensures s.value == 0 && Valid() && SchedInv(View())
      ensures taken ==> View() == old(View()) && WaitList(s.waiters, w)
      ensures !taken ==> Block(old(View()), Blocked) == Ok(View()) && WaitList(s.waiters, w + [old(cur)])
    {
      hide SchedInv, Block, List.Holds, Sleepers;
      if s.value == 0 {
        WaitOn(s.waiters, w);
        return false;
      }
      s.value := s.value - 1;
      assert s.value == 0;
      return true;
    }

    /** list_append and thread_block */
    method WaitOn(l: List, ghost w: seq<Tid>)
      requires Valid() && SchedInv(View()) && cur != idle && WaitList(l, w) && Sleepers(w)
      modifies this`cur, this`ready, this`status, this`ticks,
               Nodes(readyList, ready), tags[cur], tags[idle], Nodes(l, w)
      ensures Valid() && SchedInv(View())
      ensures Block(old(View()), Blocked) == Ok(View()) && WaitList(l, w + [old(cur)])
    {
      hide SchedInv, Block, WaitList, ListOk, Sleepers, Typed;
      ParkCurrent(l, w);
      ghost var w1 := w + [cur];
      assert WaitList(l, w1);
      ThreadBlock(Blocked);
      assert WaitList(l, w1);
    }

    /** elem_find, list_append on a waiters list */
    method AppendWaiter(l: List, ghost w: seq<Tid>, t: Tid)
      requires WaitList(l, w) && t in tags && t !in w
      modifies Nodes(l, w), tags[t]
      ensures WaitList(l, w + [t]) && unchanged(this)
    {
      hide List.Holds;
      NotIn(l, w, t);
      var found := l.Find(tags[t], Tags(w));
      assert !found;
      InNodes(l, w);
      l.Append(tags[t], Tags(w));
      assert Tags(w + [t]) == Tags(w) + [tags[t]];
    }

    /** The current task queues up: its node was on no list. */
    method ParkCurrent(l: List, ghost w: seq<Tid>)
      requires Valid() && SchedInv(View()) && cur != idle && WaitList(l, w) && Sleepers(w)
      modifies Nodes(l, w), tags[cur]
      ensures Valid() && WaitList(l, w + [cur]) && unchanged(this)
      ensures Nodes(l, w + [cur]) == Nodes(l, w) + {tags[cur]}
      ensures Nodes(l, w + [cur]) !! Nodes(readyList, ready) + {tags[idle]}
    {
      hide ListOk, WaitList, SchedInv, Sleepers, Typed;
      Disjoint(l, w);
      CurrentApart(w);
      NodesOf(l, w, cur);
      AppendWaiter(l, w, cur);
    }

    lemma CurrentApart(w: seq<Tid>)
      requires Valid() && SchedInv(View()) && cur != idle && Sleepers(w)
      ensures cur in tags && idle in tags && cur !in w
      ensures tags[cur] !in Nodes(readyList, ready) + {tags[idle]}
    {
      hide List.Holds;
      forall u | u in ready || u == idle ensures tags[u] != tags[cur] {
        assert tags[u].owner == u;
      }
    }

    /** sema_up: the first waiter moves from the waiters list to the front of the ready list. */
    method SemaUp(s: Semaphore, ghost w: seq<Tid>)
      requires Valid() && SchedInv(View()) && s.value == 0
      requires WaitList(s.waiters, w) && Sleepers(w)
      modifies this`ready, this`status, s`value, Nodes(readyList, ready), Nodes(s.waiters, w)
      ensures s.value == 1 && Valid() && SchedInv(View())
      ensures w == [] ==> View() == old(View()) && WaitList(s.waiters, [])
      ensures w != [] ==> Unblock(old(View()), w[0]) == Ok(View()) && WaitList(s.waiters, w[1..])
    {
      hide SchedInv, Unblock, List.Holds, Sleepers, Typed;
      WakeFirst(s.waiters, w);
      s.value := s.value + 1;
    }

    /** list_pop and thread_unblock */
    method WakeFirst(l: List, ghost w: seq<Tid>)
      requires Valid() && SchedInv(View()) && WaitList(l, w) && Sleepers(w)
      modifies this`ready, this`status, Nodes(readyList, ready), Nodes(l, w)
      ensures Valid() && SchedInv(View())
      ensures w == [] ==> View() == old(View()) && WaitList(l, [])
      ensures w != [] ==> Unblock(old(View()), w[0]) == Ok(View()) && WaitList(l, w[1..])
    {
      var empty := l.Empty(Tags(w));
      hide SchedInv, Unblock, WaitList, ListOk, Typed;
      if !empty {
        MoveFirst(l, w);
      }
    }

    method MoveFirst(l: List, ghost w: seq<Tid>)
      requires Valid() && SchedInv(View()) && WaitList(l, w) && Sleepers(w) && w != []
      modifies this`ready, this`status, Nodes(readyList, ready), Nodes(l, w)
      ensures Valid() && SchedInv(View())
      ensures Unblock(old(View()), w[0]) == Ok(View()) && WaitList(l, w[1..])
    {
      hide SchedInv, Unblock, WaitList, ListOk, Typed, Sleepers, Tags;
      FirstSafe(w);
      var t := PopWaiter(l, w);
      ghost var rest := w[1..];
      assert WaitList(l, rest);
      ThreadUnblock(t);
      assert WaitList(l, rest);
    }

    lemma FirstSafe(w: seq<Tid>)
      requires Valid() && SchedInv(View()) && Sleepers(w) && w != []
      ensures w[0] in status && Unblock(View(), w[0]).Ok? && SchedInv(Unblock(View(), w[0]).value)
    {
      hide ListOk, SchedInv, Unblock, Typed;
      UnblockSafe(View(), w[0]);
    }

    /** list_pop on a waiters list and elem2entry */
    method PopFirst(l: List, ghost w: seq<Tid>) returns (t: Tid)
      requires WaitList(l, w) && w != []
      modifies Nodes(l, w)
      ensures WaitList(l, w[1..]) && t == w[0] && unchanged(this)
    {
      InNodes(l, w);
      var tag := l.Pop(Tags(w));
      assert Tags(w[1..]) == Tags(w)[1..];
      t := tag.owner;
    }

    method PopWaiter(l: List, ghost w: seq<Tid>) returns (t: Tid)
      requires Valid() && SchedInv(View()) && WaitList(l, w) && Sleepers(w) && w != []
      modifies Nodes(l, w)
      ensures Valid() && WaitList(l, w[1..]) && t == w[0] && unchanged(this)
      ensures Nodes(l, w[1..]) !! Nodes(readyList, ready) + {tags[t]}
      ensures tags[t] in Nodes(l, w) && Nodes(l, w[1..]) <= Nodes(l, w)
    {
      hide ListOk, WaitList, SchedInv, Sleepers, Typed;
      Disjoint(l, w);
      FirstApart(l, w);
      t := PopFirst(l, w);
    }

    lemma FirstApart(l: List, w: seq<Tid>)
      requires WaitList(l, w) && Sleepers(w) && w != []
      ensures w[0] in tags && tags[w[0]] in Nodes(l, w)
      ensures Nodes(l, w[1..]) <= Nodes(l, w) - {tags[w[0]]}
    {
      hide List.Holds;
      forall u | u in w[1..] ensures tags[u] != tags[w[0]] {
        assert tags[u].owner == u;
      }
      NodesOf(l, w, w[0]);
    }
  }
}
