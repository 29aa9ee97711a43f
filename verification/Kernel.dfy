/** The scheduler and the semaphores performed in place. Each method is one region that the kernel runs
    with interrupts off, tied to its specification. */
module Kernel {
  import opened Machine
  import opened OrderedList
  import opened Scheduler
  import SchedulerProofs

  class Threads {
    const policy: Policy
    const idle: nat
    var threads: map<nat, Thread>
    var ready: seq<nat>
    var current: nat
    var semas: map<nat, Semaphore>

    ghost function Core(): State
      reads this
    {
      State(policy, threads, ready, current, idle, semas)
    }

    /** The state in which the idle thread exists and `main` runs. */
    constructor (policy: Policy, main: nat, idle: nat, priority: int)
      requires main != idle
      ensures Inv(Core()) && current == main && this.policy == policy && this.idle == idle
      ensures threads == map[main := Thread(Running, priority, None), idle := Thread(Blocked, 0, None)]
      ensures semas == map[]
    {
      this.policy, this.idle := policy, idle;
      threads := map[main := Thread(Running, priority, None), idle := Thread(Blocked, 0, None)];
      ready, current, semas := [], main, map[];
      new;
      assert OneRuns(Core()) && ReadyOk(Core()) && SemasOk(Core());
    }

    /** `list_insert_ordered (&ready_list, elem, prio_detect, NULL)`. */
    method InsertByPriority(t: nat)
      requires t in threads && forall u :: u in ready ==> u in threads
      modifies this`ready
      ensures ready == Inserted(old(ready), Place(Keys(old(Core()), old(ready)), -PriorityOf(old(Core()), t)), t)
    {
      ghost var keys := Keys(Core(), ready);
      var e := 0;
      while e < |ready| && threads[t].priority <= threads[ready[e]].priority
        invariant e <= |ready| && forall i :: 0 <= i < e ==> keys[i] <= -threads[t].priority
      {
        e := e + 1;
      }
      PlaceIs(keys, -threads[t].priority, e);
      ready := ready[..e] + [t] + ready[e..];
    }

    method Queue(t: nat)
      requires t in threads && forall u :: u in ready ==> u in threads
      modifies this`ready
      ensures ready == Enqueue(old(Core()), t)
    {
      if policy.Fifo? {
        ready := ready + [t];
      } else {
        InsertByPriority(t);
      }
    }

    method SetStatus(t: nat, status: Status)
      requires t in threads
      modifies this`threads
      ensures Core() == WithStatus(old(Core()), t, status) && t in threads
    {
      threads := threads[t := threads[t].(status := status)];
    }

    /** `next_thread_to_run`. */
    method NextThreadToRun() returns (next: nat)
      modifies this`ready
      ensures next == Next(old(Core()))
      ensures ready == if old(ready) == [] then [] else old(ready)[1..]
    {
      if ready == [] {
        return idle;
      }
      next := ready[0];
      ready := ready[1..];
    }

    /** `schedule` and `thread_schedule_tail`. It asserts that the thread being left no longer runs. */
    method Switch()
      requires SchedulerProofs.Switching(Core()) && current in threads && threads[current].status != Running
      modifies this`ready, this`current, this`threads
      ensures Core() == Schedule(old(Core())) && Inv(Core())
    {
      SchedulerProofs.ScheduleKeeps(Core());
      SchedulerProofs.ScheduleKeepsReady(Core());
      hide SchedulerProofs.Switching, Inv;
      var next := NextThreadToRun();
      current := next;
      SetStatus(next, Running);
    }

    /** `thread_block`. */
    method ThreadBlock()
      requires Inv(Core()) && current in threads && threads[current].want == None
      modifies this`ready, this`current, this`threads
      ensures Core() == Block(old(Core())) && Inv(Core())
    {
      SchedulerProofs.Leaves(Core(), ready, Blocked);
      assert Core().(ready := ready) == Core();
      hide SchedulerProofs.Switching, Inv;
      SetStatus(current, Blocked);
      Switch();
    }

    /** `thread_unblock`. It asserts that the thread is blocked. */
    method ThreadUnblock(t: nat)
      requires t in threads && threads[t].status == Blocked && forall u :: u in ready ==> u in threads
      modifies this`ready, this`threads
      ensures Core() == Unblock(old(Core()), t)
    {
      Queue(t);
      SetStatus(t, Ready);
    }

    /** `thread_yield`. */
    method ThreadYield()
      requires Inv(Core()) && current in threads && threads[current].want == None
      modifies this`ready, this`current, this`threads
      ensures Core() == Yield(old(Core())) && Inv(Core())
    {
      ghost var queued := if current != idle then Enqueue(Core(), current) else ready;
      SchedulerProofs.Leaves(Core(), queued, Ready);
      KnownReady();
      assert Core().(ready := ready) == Core();
      hide SchedulerProofs.Switching, Inv, Enqueue, Schedule;
      if current != idle {
        Queue(current);
      }
      assert ready == queued;
      SetStatus(current, Ready);
      Switch();
    }

    /** The end of `thread_exit`. */
    method ThreadExit()
      requires Inv(Core()) && current in threads && threads[current].want == None && current != idle
      modifies this`ready, this`current, this`threads
      ensures Core() == Exit(old(Core())) && Inv(Core())
    {
      SchedulerProofs.Leaves(Core(), ready, Dying);
      assert Core().(ready := ready) == Core();
      hide SchedulerProofs.Switching, Inv;
      SetStatus(current, Dying);
      Switch();
    }

    lemma KnownReady()
      requires Inv(Core())
      ensures current in threads && forall u :: u in ready ==> u in threads
    {
    }

    // ------------------------------------------------------------ semaphores

    /** `sema_init`. */
    method Init(s: nat, value: nat)
      modifies this`semas
      ensures Core() == SemaInit(old(Core()), s, value)
    {
      semas := semas[s := Semaphore(value, [])];
    }

    /** One trip through `sema_down`: it either takes a unit, or queues and gives the processor away, to
        test again when it is next dispatched. */
    method Down(s: nat) returns (done: bool)
      requires Inv(Core()) && SchedulerProofs.MayDown(Core(), s)
      modifies this
      ensures Core() == Scheduler.Down(old(Core()), s) && Inv(Core())
      ensures done == (old(semas)[s].value > 0)
    {
      if semas[s].value == 0 {
        SchedulerProofs.WaitKeeps(Core(), s);
        Sleep(s);
        done := false;
      } else {
        SchedulerProofs.TakeKeeps(Core(), s);
        hide Inv;
        semas := semas[s := semas[s].(value := semas[s].value - 1)];
        threads := threads[current := threads[current].(want := None)];
        done := true;
      }
    }

    /** `list_push_back (&sema->waiters, ...)` and `thread_block`. */
    method Sleep(s: nat)
      requires Inv(Core()) && SchedulerProofs.MayDown(Core(), s) && semas[s].value == 0
      modifies this
      ensures Core() == Wait(old(Core()), s) && Inv(Core())
    {
      SchedulerProofs.WaitSwitches(Core(), s);
      hide SchedulerProofs.Switching, Inv;
      semas := semas[s := semas[s].(waiters := semas[s].waiters + [current])];
      threads := threads[current := threads[current].(want := Some(s))];
      SetStatus(current, Blocked);
      Switch();
    }

    /** `sema_try_down`. */
    method TryDown(s: nat) returns (success: bool)
      requires s in semas
      modifies this`semas
      ensures Core() == Scheduler.TryDown(old(Core()), s) && success == (old(semas)[s].value > 0)
    {
      if semas[s].value > 0 {
        semas := semas[s := semas[s].(value := semas[s].value - 1)];
        success := true;
      } else {
        success := false;
      }
    }

    /** `sema_up`. The thread it unblocks is blocked, as `thread_unblock` asserts. */
    method Up(s: nat)
      requires Inv(Core()) && s in semas
      modifies this`semas, this`ready, this`threads
      ensures Core() == Scheduler.Up(old(Core()), s) && Inv(Core())
    {
      SchedulerProofs.UpKeeps(Core(), s);
      FirstWaiterBlocked(s);
      hide Inv, Enqueue;
      if semas[s].waiters != [] {
        var w := semas[s].waiters[0];
        semas := semas[s := semas[s].(waiters := semas[s].waiters[1..])];
        ThreadUnblock(w);
      }
      semas := semas[s := semas[s].(value := semas[s].value + 1)];
    }

    lemma FirstWaiterBlocked(s: nat)
      requires Inv(Core()) && s in semas
      ensures semas[s].waiters != [] ==> semas[s].waiters[0] in threads && threads[semas[s].waiters[0]].status == Blocked
      ensures forall u :: u in ready ==> u in threads
    {
      assert WaitersOk(Core(), s);
      assert semas[s].waiters != [] ==> Awaits(Core(), semas[s].waiters[0], s);
    }
  }
}
