/** What every step of the condition variables keeps, and with it every step of the monitors. */
module ConditionProofs {
  import opened Machine
  import Scheduler
  import opened Monitor
  import opened MonitorProofs
  import opened SchedulerEffects

  // ---------------------------------------------------------------- waiting

  lemma CondWaitTickets(m: State, r: State, c: nat, s: nat, u: nat)
    requires TicketsOk(m) && CondsOk(m) && c in m.conds && s !in m.core.semas && s !in m.tickets && u in m.core.threads
    requires r.tickets == m.tickets[s := Ticket(u, Queued(c))] && r.conds == m.conds[c := m.conds[c] + [s]]
    requires r.guards == m.guards && r.locks == m.locks && m.core.threads.Keys <= r.core.threads.Keys
    requires forall x :: x in m.core.semas ==> SameValue(m, r, x)
    requires s in r.core.semas && r.core.semas[s].value == 0
    requires OtherPhasesSame(m, r, u) && PhaseOf(m, u).Free? && PhaseOf(r, u).Listed? && PhaseOf(r, u).w.sema == s
    ensures TicketsOk(r) && CondsOk(r)
  {
    forall x | x in r.tickets ensures TicketOk(r, x) {
      if x != s {
        assert TicketOk(m, x);
        assert forall t :: BeforeWake(r, t, x) == BeforeWake(m, t, x);
      }
    }
    forall d | d in r.conds ensures CondOk(r, d) {
      assert CondOk(m, d);
    }
  }

  lemma CondWaitLocks(m: State, r: State, s: nat, u: nat)
    requires LocksOk(m) && r.locks == m.locks && s !in m.core.semas
    requires forall x :: x in r.tickets ==> x in m.tickets || x == s
    requires m.core.threads.Keys <= r.core.threads.Keys
    requires forall t :: t in r.core.threads && t !in m.core.threads ==> t !in m.phases
    requires u in m.core.threads && OtherPhasesSame(m, r, u) && PhaseOf(m, u).Free? && PhaseOf(r, u).Listed?
    requires forall x :: x in m.core.semas ==> SameValue(m, r, x)
    ensures LocksOk(r)
  {
    forall t, l | l in m.locks ensures Counts(m, t, l) == Counts(r, t, l) {
      assert LockOk(m, l);
    }
    forall l | l in m.locks ensures SameValue(m, r, m.locks[l].sema) {
      assert LockOk(m, l);
    }
    hide LocksOk, Counts, SameValue;
    LocksLeft(m, r);
  }

  lemma CondWaitMe(m: State, r: State, c: nat, s: nat)
    requires ThreadsOk(m) && AtRest(m) && c in m.conds && c in m.guards && Holds(m, Me(m), m.guards[c])
    requires r == Goes(m, Listed(Waiter(c, m.guards[c], s))).(
      core := r.core, conds := m.conds[c := m.conds[c] + [s]], tickets := m.tickets[s := Ticket(Me(m), Queued(c))])
    requires Me(m) in r.core.threads && r.core.threads[Me(m)].want == None && !Stopped(r.core.threads[Me(m)].status)
    ensures ThreadOk(r, Me(m)) && (forall t :: t in m.phases ==> t in m.core.threads)
  {
  }

  lemma FreshTicket(m: State, s: nat)
    requires TicketsOk(m) && s !in m.core.semas
    ensures s !in m.tickets
  {
    assert s in m.tickets ==> TicketOk(m, s);
  }

  lemma CondWaitKeeps(m: State, c: nat, s: nat)
    requires Inv(m) && Enabled(m, CondWait(c, s))
    ensures Inv(Step(m, CondWait(c, s)))
  {
    hide Scheduler.Inv, Scheduler.Step, ThreadsOk, LocksOk, TicketsOk, CondsOk, CoreMoves, ThreadOk;
    var r := Step(m, CondWait(c, s));
    var e := Scheduler.DoSemaInit(s, 0);
    CoreFacts(m.core);
    EffectMoves(m, r, e);
    EffectValues(m, r, e);
    GrowsOnly(m, r);
    FreshTicket(m, s);
    CondWaitMe(m, r, c, s);
    CondWaitLocks(m, r, s, Me(m));
    CondWaitTickets(m, r, c, s, Me(m));
    OtherThreads(m, r, Me(m));
  }

  /** A waiter that finds its unit has been signalled, and uses the unit up. */
  lemma WokenTickets(m: State, r: State, w: Waiter, u: nat)
    requires TicketsOk(m) && CondsOk(m) && w.sema in m.tickets && m.tickets[w.sema].owner == u && u in m.core.threads
    requires r.tickets == m.tickets && r.conds == m.conds && r.guards == m.guards && r.locks == m.locks
    requires m.core.threads.Keys <= r.core.threads.Keys
    requires w.sema in m.core.semas && m.core.semas[w.sema].value > 0
    requires w.sema in r.core.semas && r.core.semas[w.sema].value == m.core.semas[w.sema].value - 1
    requires forall x :: x in m.tickets && x != w.sema ==> SameValue(m, r, x)
    requires OtherPhasesSame(m, r, u) && PhaseOf(m, u) == Sleeping(w) && PhaseOf(r, u) == Acquiring(w.lock, Some(w))
    ensures TicketsOk(r) && CondsOk(r) && m.tickets[w.sema].mail.Sent?
  {
    assert TicketOk(m, w.sema);
    forall x | x in r.tickets ensures TicketOk(r, x) {
      assert TicketOk(m, x);
      assert forall t :: BeforeWake(r, t, x) == (BeforeWake(m, t, x) && !(t == u && x == w.sema));
    }
    hide TicketsOk, CondsOk, TicketOk, BeforeWake;
    CondsLeft(m, r);
  }

  lemma WokenLocks(m: State, r: State, w: Waiter)
    requires LocksOk(m) && ThreadsOk(m) && r.locks == m.locks && r.tickets == m.tickets && w.sema in m.tickets
    requires m.core.threads.Keys <= r.core.threads.Keys && Me(m) in m.core.threads
    requires OtherPhasesSame(m, r, Me(m)) && PhaseOf(m, Me(m)) == Sleeping(w)
    requires PhaseOf(r, Me(m)) == Acquiring(w.lock, Some(w))
    requires forall x :: x in m.core.semas && x != w.sema ==> SameValue(m, r, x)
    ensures LocksOk(r)
  {
    forall t, l | l in m.locks ensures Counts(m, t, l) == Counts(r, t, l) {
      assert LockOk(m, l);
    }
    forall l | l in m.locks ensures SameValue(m, r, m.locks[l].sema) {
      assert LockOk(m, l);
    }
    hide LocksOk, Counts, SameValue;
    LocksLeft(m, r);
  }

  lemma SleeperFacts(m: State)
    requires ThreadsOk(m) && TicketsOk(m) && Me(m) in m.core.threads && PhaseOf(m, Me(m)).Sleeping?
    ensures var w := PhaseOf(m, Me(m)).w;
      w.sema in m.tickets && m.tickets[w.sema].owner == Me(m) && w.sema in m.core.semas && w.lock in m.locks
    ensures forall t :: t in m.phases ==> t in m.core.threads
  {
    assert ThreadOk(m, Me(m)) && TicketOk(m, PhaseOf(m, Me(m)).w.sema);
  }

  lemma SleepDownKeeps(m: State)
    requires Inv(m) && Enabled(m, SleepDown)
    ensures Inv(Step(m, SleepDown))
  {
    hide Scheduler.Inv, Scheduler.Step, ThreadsOk, LocksOk, TicketsOk, CondsOk, CoreMoves, ThreadOk;
    var w := PhaseOf(m, Me(m)).w;
    var r := Step(m, SleepDown);
    var e := Scheduler.DoDown(w.sema);
    CoreFacts(m.core);
    SleeperFacts(m);
    EffectMoves(m, r, e);
    EffectValues(m, r, e);
    GrowsOnly(m, r);
    if m.core.semas[w.sema].value > 0 {
      WokenLocks(m, r, w);
      WokenTickets(m, r, w, Me(m));
      assert ThreadOk(r, Me(m)) by {
        WokenMe(m, r, w);
      }
      OtherThreads(m, r, Me(m));
    } else {
      DownWaits(m, r, w.sema);
      CoreKeeps(m, r, e);
    }
  }

  lemma WokenMe(m: State, r: State, w: Waiter)
    requires w.sema in m.tickets && m.tickets[w.sema] == Ticket(Me(m), Sent) && w.lock in m.locks
    requires Me(m) in r.core.threads
    requires r == Goes(m, Acquiring(w.lock, Some(w))).(core := r.core) && r.core.threads[Me(m)].want == None
    requires !Stopped(r.core.threads[Me(m)].status)
    ensures ThreadOk(r, Me(m))
  {
  }

  // ---------------------------------------------------------------- signalling

  lemma SignalTables(m: State, r: State, c: nat, u: nat)
    requires TicketsOk(m) && CondsOk(m) && c in m.conds && m.conds[c] != [] && m.conds[c][0] in m.tickets
    requires u in m.core.threads
    requires var s := m.conds[c][0];
      && r.tickets == m.tickets[s := m.tickets[s].(mail := Popped(u))] && PhaseOf(r, u) == Signalling(s)
    requires r.conds == m.conds[c := m.conds[c][1..]] && r.guards == m.guards && r.locks == m.locks && r.core == m.core
    requires OtherPhasesSame(m, r, u) && PhaseOf(m, u).Free?
    ensures TicketsOk(r) && CondsOk(r) && m.tickets[m.conds[c][0]].mail == Queued(c)
  {
    var s := m.conds[c][0];
    assert CondOk(m, c) && s in m.conds[c];
    assert m.conds[c] == [s] + m.conds[c][1..];
    forall x | x in r.tickets ensures TicketOk(r, x) {
      assert TicketOk(m, x);
      assert forall t :: BeforeWake(r, t, x) == BeforeWake(m, t, x);
    }
    hide TicketOk, BeforeWake, TicketsOk;
    forall d | d in r.conds ensures CondOk(r, d) {
      assert CondOk(m, d);
    }
  }

  lemma SignalLocks(m: State, r: State, u: nat)
    requires LocksOk(m) && r.locks == m.locks && r.tickets.Keys == m.tickets.Keys && u in m.core.threads
    requires m.core.threads.Keys <= r.core.threads.Keys
    requires forall t :: t in r.core.threads && t !in m.core.threads ==> t !in m.phases
    requires forall l :: l in m.locks ==> SameValue(m, r, m.locks[l].sema)
    requires OtherPhasesSame(m, r, u) && !PhaseOf(m, u).Taken? && !PhaseOf(m, u).Released? && !PhaseOf(r, u).Taken?
    requires !PhaseOf(r, u).Released?
    ensures LocksOk(r)
  {
    forall t, l | l in m.locks ensures Counts(m, t, l) == Counts(r, t, l) {
      assert LockOk(m, l);
    }
    hide LocksOk, Counts, SameValue;
    LocksLeft(m, r);
  }

  lemma CondSignalKeeps(m: State, c: nat)
    requires Inv(m) && Enabled(m, CondSignal(c))
    ensures Inv(Step(m, CondSignal(c)))
  {
    hide Scheduler.Inv, Scheduler.Step, Scheduler.Enabled, ThreadsOk, LocksOk, TicketsOk, CondsOk, CoreMoves;
    var r := Step(m, CondSignal(c));
    if m.conds[c] != [] {
      CoreFacts(m.core);
      NoMoves(m, r);
      PhasesKnown(m);
      SignalTables(m, r, c, Me(m));
      SignalLocks(m, r, Me(m));
      OtherThreads(m, r, Me(m));
    }
  }

  lemma PhasesKnown(m: State)
    requires ThreadsOk(m)
    ensures forall t :: t in m.phases ==> t in m.core.threads
  {
  }

  lemma SentTables(m: State, r: State, s: nat, u: nat)
    requires TicketsOk(m) && CondsOk(m) && s in m.tickets && m.tickets[s].mail == Popped(u)
    requires r.tickets == m.tickets[s := m.tickets[s].(mail := Sent)] && r.conds == m.conds && r.guards == m.guards
    requires r.locks == m.locks
    requires m.core.threads.Keys <= r.core.threads.Keys
    requires s in m.core.semas && s in r.core.semas && r.core.semas[s].value == m.core.semas[s].value + 1
    requires forall x :: x in m.tickets && x != s ==> SameValue(m, r, x)
    requires OtherPhasesSame(m, r, u) && PhaseOf(m, u) == Signalling(s) && PhaseOf(r, u).Free?
    ensures TicketsOk(r) && CondsOk(r)
  {
    forall x | x in r.tickets ensures TicketOk(r, x) {
      assert TicketOk(m, x);
      assert forall t :: BeforeWake(r, t, x) == BeforeWake(m, t, x);
    }
    hide TicketOk, BeforeWake, TicketsOk, CondsOk;
    CondsLeft(m, r);
  }

  lemma SignallerFacts(m: State)
    requires ThreadsOk(m) && TicketsOk(m) && LocksOk(m) && Me(m) in m.core.threads && PhaseOf(m, Me(m)).Signalling?
    ensures var s := PhaseOf(m, Me(m)).sema; s in m.tickets && m.tickets[s].mail == Popped(Me(m)) && s in m.core.semas
    ensures m.core.threads[Me(m)].want == None
    ensures forall l :: l in m.locks ==> m.locks[l].sema != PhaseOf(m, Me(m)).sema && m.locks[l].sema in m.core.semas
    ensures forall x :: x in m.tickets ==> x in m.core.semas
  {
    assert ThreadOk(m, Me(m)) && TicketOk(m, PhaseOf(m, Me(m)).sema);
    forall l | l in m.locks ensures m.locks[l].sema != PhaseOf(m, Me(m)).sema && m.locks[l].sema in m.core.semas {
      assert LockOk(m, l);
    }
    forall x | x in m.tickets ensures x in m.core.semas {
      assert TicketOk(m, x);
    }
  }

  lemma SignalUpIs(m: State)
    requires Enabled(m, SignalUp)
    ensures PhaseOf(m, Me(m)).Signalling? && PhaseOf(m, Me(m)).sema in m.tickets
    ensures var s := PhaseOf(m, Me(m)).sema; var e := Scheduler.DoUp(s);
      && Scheduler.Enabled(m.core, e)
      && Step(m, SignalUp) == Goes(m, Free).(core := Scheduler.Step(m.core, e), tickets := m.tickets[s := m.tickets[s].(mail := Sent)])
  {
    hide Scheduler.Step, Scheduler.Enabled;
  }

  lemma SignalUpKeeps(m: State)
    requires Inv(m) && Enabled(m, SignalUp)
    ensures Inv(Step(m, SignalUp))
  {
    hide Enabled, Step, Scheduler.Inv, Scheduler.Step, Scheduler.Enabled;
    hide ThreadsOk, LocksOk, TicketsOk, CondsOk, CoreMoves, ThreadOk;
    SignalUpIs(m);
    var r := Step(m, SignalUp);
    var s := PhaseOf(m, Me(m)).sema;
    CoreFacts(m.core);
    SignallerFacts(m);
    PhasesKnown(m);
    EffectMoves(m, r, Scheduler.DoUp(s));
    EffectValues(m, r, Scheduler.DoUp(s));
    GrowsOnly(m, r);
    SentTables(m, r, s, Me(m));
    SignalLocks(m, r, Me(m));
    RestMe(r);
    OtherThreads(m, r, Me(m));
  }

  // ---------------------------------------------------------------- creation, and the kernel's other work

  lemma LockInitLocks(m: State, r: State, l: nat, s: nat)
    requires LocksOk(m) && ThreadsOk(m) && l !in m.locks && s !in m.core.semas && s !in m.tickets
    requires r.tickets == m.tickets
    requires r.locks == m.locks[l := Lock(s, None)] && r.phases == m.phases
    requires m.core.threads.Keys <= r.core.threads.Keys
    requires s in r.core.semas && r.core.semas[s].value == 1 && forall x :: x in m.core.semas ==> SameValue(m, r, x)
    ensures LocksOk(r)
  {
    forall k | k in r.locks ensures LockOk(r, k) {
      if k == l {
        forall t | t in r.core.threads ensures !IsInside(r, t, l) {
          assert t in m.core.threads ==> ThreadOk(m, t);
        }
        assert Inside(r, l) == {};
      } else {
        assert LockOk(m, k);
        InsideSame(m, r, k);
      }
    }
    assert forall k :: k in m.locks ==> LockOk(m, k);
  }

  lemma LockInitKeeps(m: State, l: nat, s: nat)
    requires Inv(m) && Enabled(m, LockInit(l, s))
    ensures Inv(Step(m, LockInit(l, s)))
  {
    hide Scheduler.Inv, Scheduler.Step, ThreadsOk, LocksOk, TicketsOk, CondsOk, CoreMoves, ThreadOk;
    var r := Step(m, LockInit(l, s));
    var e := Scheduler.DoSemaInit(s, 1);
    CoreFacts(m.core);
    EffectMoves(m, r, e);
    EffectValues(m, r, e);
    GrowsOnly(m, r);
    FreshTicket(m, s);
    LockInitLocks(m, r, l, s);
    TicketsLeft(m, r);
    CondsLeft(m, r);
    PhasesKnown(m);
    assert ThreadOk(r, Me(m)) by {
      RestMe(r);
    }
    OtherThreads(m, r, Me(m));
  }

  lemma RestMe(r: State)
    ensures forall t :: t in r.core.threads && PhaseOf(r, t).Free? && r.core.threads[t].want == None ==> ThreadOk(r, t)
  {
  }

  lemma CondInitKeeps(m: State, c: nat, l: nat)
    requires Inv(m) && Enabled(m, CondInit(c, l))
    ensures Inv(Step(m, CondInit(c, l)))
  {
    hide Scheduler.Inv, Scheduler.Step, Scheduler.Enabled, ThreadsOk, LocksOk, TicketsOk;
    var r := Step(m, CondInit(c, l));
    NoMoves(m, r);
    CoreFacts(m.core);
    assert CondsOk(r) by {
      forall d | d in r.conds ensures CondOk(r, d) {
        assert d != c ==> CondOk(m, d);
      }
    }
    SameCounts(m, r);
    hide CondsOk, CoreMoves, ThreadOk, Counts;
    LocksLeft(m, r);
    TicketsLeft(m, r);
    PhasesKnown(m);
    RestMe(r);
    OtherThreads(m, r, Me(m));
  }

  lemma KernelValues(m: State, r: State, e: Scheduler.Event)
    requires KernelMay(m, e) && LocksOk(m)
    requires forall s :: s in m.core.semas ==> s in r.core.semas && r.core.semas[s].value == ValueAfter(m.core, e, s)
    ensures forall l :: l in m.locks ==> SameValue(m, r, m.locks[l].sema)
    ensures forall s :: s in m.tickets ==> SameValue(m, r, s)
  {
    hide Scheduler.Enabled, Scheduler.Step, LockOk;
  }

  lemma KernelMe(m: State, r: State, e: Scheduler.Event)
    requires KernelMay(m, e) && ThreadsOk(m) && r == m.(core := r.core) && Me(m) in m.core.threads
    requires Me(m) in r.core.threads
    requires m.core.threads[Me(m)].status == Scheduler.Running
    requires r.core.threads[Me(m)].want == WantAfter(m.core, e)
    requires Stopped(r.core.threads[Me(m)].status) ==> e.DoBlock? || e.DoExit? || WantAfter(m.core, e).Some?
    ensures ThreadOk(r, Me(m))
  {
    assert ThreadOk(m, Me(m));
    hide Scheduler.Enabled, Scheduler.Step;
  }

  lemma KernelKeeps(m: State, e: Scheduler.Event)
    requires Inv(m) && Enabled(m, Kernel(e))
    ensures Inv(Step(m, Kernel(e)))
  {
    hide Scheduler.Inv, Scheduler.Step, ThreadsOk, LocksOk, TicketsOk, CondsOk, CoreMoves, ThreadOk;
    var r := Step(m, Kernel(e));
    CoreFacts(m.core);
    EffectMoves(m, r, e);
    EffectValues(m, r, e);
    GrowsOnly(m, r);
    hide Scheduler.Enabled, ValueAfter, WantAfter, SameValue;
    KernelValues(m, r, e);
    KernelMe(m, r, e);
    CoreKeeps(m, r, e);
  }

  // ---------------------------------------------------------------- every step

  /** Every lock's unit is in its semaphore or with one thread; every waiter's signal is on a condition's
      list, in one thread's hands, in the waiter's semaphore or used up. Every step keeps all of it. */
  lemma StepKeeps(m: State, e: Event)
    requires Inv(m) && Enabled(m, e)
    ensures Inv(Step(m, e))
  {
    hide Inv, Step;
    match e
    case LockInit(l, s) => LockInitKeeps(m, l, s);
    case CondInit(c, l) => CondInitKeeps(m, c, l);
    case Acquire(l) => AcquireKeeps(m, l);
    case TryAcquire(l) => TryAcquireKeeps(m, l);
    case LockDown => LockDownKeeps(m);
    case SetHolder => SetHolderKeeps(m);
    case Release(l) => ReleaseKeeps(m, l);
    case UnlockUp => UnlockUpKeeps(m);
    case CondWait(c, s) => CondWaitKeeps(m, c, s);
    case WaitRelease => WaitReleaseKeeps(m);
    case SleepDown => SleepDownKeeps(m);
    case CondSignal(c) => CondSignalKeeps(m, c);
    case SignalUp => SignalUpKeeps(m);
    case Kernel(k) => KernelKeeps(m, k);
  }

  lemma {:induction false} RunKeeps(m: State, evs: seq<Event>)
    requires Inv(m) && Possible(m, evs)
    ensures Inv(Run(m, evs))
    decreases |evs|
  {
    if evs != [] {
      StepKeeps(m, evs[0]);
      hide Inv, Step, Enabled;
      RunKeeps(Step(m, evs[0]), evs[1..]);
    }
  }
}
