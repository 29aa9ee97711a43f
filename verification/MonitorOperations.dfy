/** Whole operations on locks and conditions, from their first step to their last, when nothing comes between
    (threads/synch.c:193-341). */
module MonitorOperations {
  import opened Machine
  import Scheduler
  import SchedulerProofs
  import opened Monitor
  import opened ConditionProofs
  import opened Synch

  /** The value of a lock's semaphore. */
  function UnitsOf(m: State, l: nat): int {
    if l in m.locks && m.locks[l].sema in m.core.semas then m.core.semas[m.locks[l].sema].value else -1
  }

  /** A lock's semaphore exists, and while it has its unit the lock has no holder. */
  lemma LockKnown(m: State, l: nat)
    requires Inv(m) && l in m.locks
    ensures m.locks[l].sema in m.core.semas && 0 <= UnitsOf(m, l) <= 1
    ensures UnitsOf(m, l) == 1 ==> m.locks[l].holder == None
  {
    hide Scheduler.Inv, ThreadsOk, TicketsOk, CondsOk;
    assert LockOk(m, l);
    if m.locks[l].holder.Some? {
      var t := m.locks[l].holder.value;
      assert t in Inside(m, l);
      assert |{t}| <= |Inside(m, l)| by {
        assert Inside(m, l) == {t} + (Inside(m, l) - {t});
      }
    }
  }

  // ---------------------------------------------------------------- the steps

  lemma LockOf(m: State, e: Event)
    requires Enabled(m, e)
    ensures e.Acquire? || e.Release? || e.TryAcquire? ==> e.l in m.locks
    ensures e.LockDown? ==> PhaseOf(m, Me(m)).Acquiring? && PhaseOf(m, Me(m)).l in m.locks
    ensures e.SetHolder? ==> PhaseOf(m, Me(m)).Taken? && PhaseOf(m, Me(m)).l in m.locks
    ensures e.UnlockUp? ==> PhaseOf(m, Me(m)).Released? && PhaseOf(m, Me(m)).l in m.locks
    ensures e.CondWait? ==> e.c in m.conds && e.c in m.guards && m.guards[e.c] in m.locks && e.sema !in m.core.semas
    ensures e.WaitRelease? ==> PhaseOf(m, Me(m)).Listed? && PhaseOf(m, Me(m)).w.lock in m.locks
  {
    hide Scheduler.Enabled;
  }

  lemma AcquireIs(m: State, l: nat)
    requires Enabled(m, Acquire(l)) && l in m.locks && m.locks[l].sema in m.core.semas
    ensures var a := Step(m, Acquire(l));
      a == Goes(m, Acquiring(l, None)) && PhaseOf(a, Me(a)) == Acquiring(l, None) && Enabled(a, LockDown)
  {
    hide Scheduler.Step;
  }

  lemma TakenIs(m: State)
    requires Enabled(m, LockDown) && PhaseOf(m, Me(m)).Acquiring? && PhaseOf(m, Me(m)).l in m.locks
    requires UnitsOf(m, PhaseOf(m, Me(m)).l) > 0
    ensures var p := PhaseOf(m, Me(m)); var s := Step(m, LockDown);
      && Me(s) == Me(m) && s.locks == m.locks && s.conds == m.conds && s.tickets == m.tickets
      && PhaseOf(s, Me(s)) == Taken(p.l, p.wait) && Enabled(s, SetHolder)
      && UnitsOf(s, p.l) == UnitsOf(m, p.l) - 1
      && Me(s) in s.core.threads && s.core.threads[Me(s)].want == None
  {
  }

  lemma HolderIs(m: State)
    requires Enabled(m, SetHolder) && PhaseOf(m, Me(m)).Taken? && PhaseOf(m, Me(m)).l in m.locks
    requires Me(m) in m.core.threads && m.core.threads[Me(m)].want == None
    ensures var p := PhaseOf(m, Me(m)); var r := Step(m, SetHolder);
      && r.core == m.core && r.conds == m.conds && r.tickets == m.tickets
      && r.locks == m.locks[p.l := m.locks[p.l].(holder := Some(Me(m)))]
      && PhaseOf(r, Me(r)) == Free && Enabled(r, Release(p.l))
  {
    hide Scheduler.Step, Scheduler.Enabled;
  }

  lemma DroppedIs(m: State, l: nat)
    requires Enabled(m, Release(l)) && l in m.locks && m.locks[l].sema in m.core.semas
    ensures var a := Step(m, Release(l));
      && a.core == m.core && a.conds == m.conds && a.tickets == m.tickets
      && a.locks == m.locks[l := m.locks[l].(holder := None)]
      && PhaseOf(a, Me(a)) == Released(l, None) && Enabled(a, UnlockUp)
  {
    hide Scheduler.Step;
  }

  lemma UppedIs(m: State)
    requires Enabled(m, UnlockUp) && PhaseOf(m, Me(m)).Released? && PhaseOf(m, Me(m)).l in m.locks
    ensures var p := PhaseOf(m, Me(m)); var r := Step(m, UnlockUp);
      && Me(r) == Me(m) && r.locks == m.locks && r.conds == m.conds && r.tickets == m.tickets
      && PhaseOf(r, Me(r)) == (if p.wait.Some? then Sleeping(p.wait.value) else Free)
      && UnitsOf(r, p.l) == UnitsOf(m, p.l) + 1
  {
    hide Scheduler.Enqueue;
  }

  // ---------------------------------------------------------------- acquiring and releasing

  /** Taking a free lock: the caller comes to hold it, and its unit is gone. */
  lemma AcquireFree(m: State, l: nat)
    requires Inv(m) && Enabled(m, Acquire(l)) && UnitsOf(m, l) > 0
    ensures l in m.locks && Enabled(Step(m, Acquire(l)), LockDown) && Enabled(Step(Step(m, Acquire(l)), LockDown), SetHolder)
    ensures var r := Step(Step(Step(m, Acquire(l)), LockDown), SetHolder);
      && Inv(r) && Me(r) == Me(m) && r.locks == m.locks[l := m.locks[l].(holder := Some(Me(m)))]
      && UnitsOf(r, l) == UnitsOf(m, l) - 1 && PhaseOf(r, Me(r)) == Free && Enabled(r, Release(l))
  {
    hide Inv, Enabled, Step, Scheduler.Inv;
    LockOf(m, Acquire(l));
    LockKnown(m, l);
    AcquireIs(m, l);
    StepKeeps(m, Acquire(l));
    var a := Step(m, Acquire(l));
    TakenIs(a);
    StepKeeps(a, LockDown);
    var s := Step(a, LockDown);
    HolderIs(s);
    StepKeeps(s, SetHolder);
  }

  lemma TriedIs(m: State, l: nat)
    requires Enabled(m, TryAcquire(l)) && l in m.locks && UnitsOf(m, l) >= 0
    ensures UnitsOf(m, l) == 0 ==> Step(m, TryAcquire(l)) == m
    ensures UnitsOf(m, l) > 0 ==>
      var s := Step(m, TryAcquire(l));
      && Me(s) == Me(m) && s.locks == m.locks && PhaseOf(s, Me(s)) == Taken(l, None) && Enabled(s, SetHolder)
      && UnitsOf(s, l) == UnitsOf(m, l) - 1 && Me(s) in s.core.threads && s.core.threads[Me(s)].want == None
  {
  }

  /** Trying for a lock: a free one comes to be held by the caller, for one that is taken nothing changes. */
  lemma TryAcquireTakesIfFree(m: State, l: nat)
    requires Inv(m) && Enabled(m, TryAcquire(l))
    ensures l in m.locks && 0 <= UnitsOf(m, l) <= 1
    ensures UnitsOf(m, l) == 0 ==> Step(m, TryAcquire(l)) == m
    ensures UnitsOf(m, l) == 1 ==>
      Enabled(Step(m, TryAcquire(l)), SetHolder) &&
      var r := Step(Step(m, TryAcquire(l)), SetHolder);
      && Inv(r) && Me(r) == Me(m) && r.locks == m.locks[l := m.locks[l].(holder := Some(Me(m)))] && UnitsOf(r, l) == 0
      && PhaseOf(r, Me(r)) == Free
  {
    hide Inv, Enabled, Step, Scheduler.Inv;
    LockOf(m, TryAcquire(l));
    LockKnown(m, l);
    TriedIs(m, l);
    StepKeeps(m, TryAcquire(l));
    if UnitsOf(m, l) == 1 {
      HolderIs(Step(m, TryAcquire(l)));
      StepKeeps(Step(m, TryAcquire(l)), SetHolder);
    }
  }

  /** Giving a lock back: nobody holds it, and its unit is there again. */
  lemma ReleaseGivesBack(m: State, l: nat)
    requires Inv(m) && Enabled(m, Release(l))
    ensures l in m.locks && Enabled(Step(m, Release(l)), UnlockUp)
    ensures var r := Step(Step(m, Release(l)), UnlockUp);
      && Inv(r) && Me(r) == Me(m) && r.locks == m.locks[l := m.locks[l].(holder := None)]
      && UnitsOf(r, l) == 1 && PhaseOf(r, Me(r)) == Free
  {
    hide Inv, Enabled, Step, Scheduler.Inv;
    LockOf(m, Release(l));
    LockKnown(m, l);
    DroppedIs(m, l);
    StepKeeps(m, Release(l));
    var a := Step(m, Release(l));
    UppedIs(a);
    StepKeeps(a, UnlockUp);
    LockKnown(a, l);
    LockKnown(Step(a, UnlockUp), l);
  }

  /** Acquiring a free lock and releasing it leaves every lock as it was. */
  lemma AcquireReleaseRoundTrip(m: State, l: nat)
    requires Inv(m) && Enabled(m, Acquire(l)) && UnitsOf(m, l) > 0
    ensures Enabled(Step(m, Acquire(l)), LockDown) && Enabled(Step(Step(m, Acquire(l)), LockDown), SetHolder)
    ensures var r := Step(Step(Step(m, Acquire(l)), LockDown), SetHolder);
      && Holds(r, Me(m), l) && UnitsOf(r, l) == 0 && Enabled(r, Release(l)) && Enabled(Step(r, Release(l)), UnlockUp)
      && var end := Step(Step(r, Release(l)), UnlockUp);
      && end.locks == m.locks && UnitsOf(end, l) == UnitsOf(m, l) == 1 && Me(end) == Me(m) && PhaseOf(end, Me(end)) == Free
  {
    hide Inv, Enabled, Step, Scheduler.Inv, UnitsOf;
    AcquireFree(m, l);
    LockKnown(m, l);
    ReleaseGivesBack(Step(Step(Step(m, Acquire(l)), LockDown), SetHolder), l);
  }

  lemma BlockedIs(m: State)
    requires Inv(m) && Enabled(m, LockDown) && PhaseOf(m, Me(m)).Acquiring? && PhaseOf(m, Me(m)).l in m.locks
    requires UnitsOf(m, PhaseOf(m, Me(m)).l) == 0
    ensures var t, p := Me(m), PhaseOf(m, Me(m)); var s := Step(m, LockDown); var sema := m.locks[p.l].sema;
      && t in s.core.threads && s.core.threads[t].status == Scheduler.Blocked && s.core.threads[t].want == Some(sema)
      && sema in s.core.semas && t in s.core.semas[sema].waiters
      && PhaseOf(s, t) == p && s.locks == m.locks && Me(s) != t
  {
    hide Inv, Enabled, Step, Scheduler.Inv, Scheduler.Down, Scheduler.Next;
    LockDownIs(m);
    RunnerKnown(m);
    RunsElsewhere(m);
    LockKnown(m, PhaseOf(m, Me(m)).l);
    WaitSeen(m.core, m.locks[PhaseOf(m, Me(m)).l].sema);
  }

  /** The running thread waits in a semaphore, and another runs. */
  lemma WaitSeen(st: Scheduler.State, s: nat)
    requires s in st.semas && st.semas[s].value == 0 && st.current in st.threads && Scheduler.Next(st) != st.current
    ensures var r := Scheduler.Down(st, s); var t := st.current;
      && t in r.threads && r.threads[t].status == Scheduler.Blocked && r.threads[t].want == Some(s)
      && s in r.semas && t in r.semas[s].waiters && r.current != t
  {
  }

  /** Whoever runs next is not the thread that blocks. */
  lemma RunsElsewhere(m: State)
    requires Inv(m) && Enabled(m, LockDown)
    ensures Scheduler.Next(m.core) != Me(m)
  {
    hide Scheduler.Enabled, LocksOk, ThreadsOk, TicketsOk, CondsOk;
    NotIdle(m);
    assert m.core.ready != [] ==> m.core.ready[0] in m.core.ready;
  }

  lemma NotIdle(m: State)
    requires Enabled(m, LockDown)
    ensures Me(m) != m.core.idle
  {
  }

  /** A lock that is taken: the caller sleeps in its semaphore and does not come to hold it. */
  lemma AcquireTaken(m: State, l: nat)
    requires Inv(m) && Enabled(m, Acquire(l)) && UnitsOf(m, l) == 0
    ensures l in m.locks && Enabled(Step(m, Acquire(l)), LockDown)
    ensures var t := Me(m); var s := Step(Step(m, Acquire(l)), LockDown); var sema := m.locks[l].sema;
      && Inv(s) && t in s.core.threads && s.core.threads[t].status == Scheduler.Blocked
      && sema in s.core.semas && t in s.core.semas[sema].waiters && s.locks == m.locks && PhaseOf(s, t) == Acquiring(l, None)
  {
    hide Inv, Enabled, Step, Scheduler.Inv;
    LockOf(m, Acquire(l));
    LockKnown(m, l);
    AcquireIs(m, l);
    StepKeeps(m, Acquire(l));
    var a := Step(m, Acquire(l));
    BlockedIs(a);
    StepKeeps(a, LockDown);
  }

  // ---------------------------------------------------------------- going to sleep in cond_wait

  lemma ListedIs(m: State, c: nat, s: nat)
    requires Enabled(m, CondWait(c, s)) && c in m.conds && c in m.guards && m.guards[c] in m.locks
    requires m.locks[m.guards[c]].sema in m.core.semas && s !in m.core.semas
    ensures var a := Step(m, CondWait(c, s)); var w := Waiter(c, m.guards[c], s);
      && Me(a) == Me(m) && PhaseOf(a, Me(a)) == Listed(w) && a.locks == m.locks && Enabled(a, WaitRelease)
      && a.conds == m.conds[c := m.conds[c] + [s]] && s in a.core.semas && a.core.semas[s].value == 0
      && UnitsOf(a, w.lock) == UnitsOf(m, w.lock) && m.locks[w.lock].sema in a.core.semas
  {
  }

  lemma GivenUpIs(m: State)
    requires Enabled(m, WaitRelease) && PhaseOf(m, Me(m)).Listed? && PhaseOf(m, Me(m)).w.lock in m.locks
    requires m.locks[PhaseOf(m, Me(m)).w.lock].sema in m.core.semas && Me(m) in m.core.threads
    ensures var w := PhaseOf(m, Me(m)).w; var a := Step(m, WaitRelease);
      && a.core == m.core && a.conds == m.conds && a.locks == m.locks[w.lock := m.locks[w.lock].(holder := None)]
      && PhaseOf(a, Me(a)) == Released(w.lock, Some(w)) && Enabled(a, UnlockUp)
  {
    hide Scheduler.Step;
  }

  /** `cond_wait` up to its sleep: the caller's own semaphore is last on the condition's list, and the lock is
      free again with its unit there. */
  lemma WaitGivesLockUp(m: State, c: nat, s: nat)
    requires Inv(m) && Enabled(m, CondWait(c, s))
    ensures c in m.conds && c in m.guards && m.guards[c] in m.locks
    ensures Enabled(Step(m, CondWait(c, s)), WaitRelease) && Enabled(Step(Step(m, CondWait(c, s)), WaitRelease), UnlockUp)
    ensures var r := Step(Step(Step(m, CondWait(c, s)), WaitRelease), UnlockUp); var l := m.guards[c];
      && Inv(r) && Me(r) == Me(m) && PhaseOf(r, Me(r)) == Sleeping(Waiter(c, l, s))
      && r.locks == m.locks[l := m.locks[l].(holder := None)] && UnitsOf(r, l) == 1
      && r.conds == m.conds[c := m.conds[c] + [s]]
  {
    hide Inv, Enabled, Step, Scheduler.Inv;
    LockOf(m, CondWait(c, s));
    var l := m.guards[c];
    LockKnown(m, l);
    ListedIs(m, c, s);
    StepKeeps(m, CondWait(c, s));
    var a := Step(m, CondWait(c, s));
    RunnerKnown(a);
    GivenUpIs(a);
    StepKeeps(a, WaitRelease);
    var b := Step(a, WaitRelease);
    LockKnown(b, l);
    UppedIs(b);
    StepKeeps(b, UnlockUp);
    LockKnown(Step(b, UnlockUp), l);
  }

  lemma RunnerKnown(m: State)
    requires Inv(m)
    ensures Me(m) in m.core.threads
  {
    hide LocksOk, ThreadsOk, TicketsOk, CondsOk;
  }
}
