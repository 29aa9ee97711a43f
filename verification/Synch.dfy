/** Locks and condition variables performed in place over the kernel's semaphores
    (threads/synch.c:175-341), one method for each stretch between two points where the thread may lose
    the processor. */
module Synch {
  import opened Machine
  import Scheduler
  import SchedulerProofs
  import opened Monitor
  import opened MonitorProofs
  import opened SchedulerEffects
  import opened ConditionProofs
  import opened Kernel

  class Monitors {
    const kernel: Threads
    var locks: map<nat, Lock>
    var conds: map<nat, seq<nat>>
    var guards: map<nat, nat>
    var phases: map<nat, Phase>
    var tickets: map<nat, Ticket>

    ghost function Now(): State
      reads this, kernel
    {
      State(kernel.Core(), locks, conds, guards, phases, tickets)
    }

    constructor (kernel: Threads)
      requires Scheduler.Inv(kernel.Core())
      ensures Inv(Now()) && this.kernel == kernel && locks == map[] && conds == map[] && phases == map[]
    {
      this.kernel := kernel;
      locks, conds, guards, phases, tickets := map[], map[], map[], map[], map[];
      new;
      RestMe(Now());
    }

    method Go(p: Phase)
      modifies this`phases
      ensures Now() == Goes(old(Now()), p)
    {
      phases := phases[kernel.current := p];
    }

    method SetLockHolder(l: nat, holder: Option<nat>)
      requires l in locks
      modifies this`locks
      ensures Now() == WithHolder(old(Now()), l, holder)
    {
      locks := locks[l := locks[l].(holder := holder)];
    }

    // ------------------------------------------------------------ locks

    /** `sema_down (&lock->semaphore)`, one trip. */
    method DownLock() returns (taken: bool)
      requires Inv(Now()) && Enabled(Now(), LockDown)
      modifies this`phases, kernel
      ensures Now() == Step(old(Now()), LockDown) && Inv(Now())
      ensures taken == (PhaseOf(Now(), old(kernel.current)) != old(PhaseOf(Now(), kernel.current)))
    {
      hide Inv, Enabled, Step, Scheduler.Inv, Scheduler.Down;
      LockDownKeeps(Now());
      LockDownIs(Now());
      var p := phases[kernel.current];
      taken := TryGo(locks[p.l].sema, Taken(p.l, p.wait));
    }

    /** A trip through `sema_down`; on success the thread moves on. */
    method TryGo(s: nat, p: Phase) returns (done: bool)
      requires Scheduler.Inv(kernel.Core()) && SchedulerProofs.MayDown(kernel.Core(), s)
      modifies this`phases, kernel
      ensures done == (old(kernel.semas)[s].value > 0)
      ensures Now() == (if done then Goes(old(Now()), p) else old(Now())).(core := Scheduler.Down(old(kernel.Core()), s))
    {
      var me := kernel.current;
      done := kernel.Down(s);
      if done {
        phases := phases[me := p];
      }
    }

    /** `lock->holder = thread_current ()`: the end of `lock_acquire` and of `cond_wait`. */
    method BecomeHolder()
      requires Inv(Now()) && Enabled(Now(), SetHolder)
      modifies this
      ensures Now() == Step(old(Now()), SetHolder) && Inv(Now())
      ensures Holds(Now(), kernel.current, old(PhaseOf(Now(), kernel.current)).l)
    {
      hide Inv, Enabled, Step;
      SetHolderKeeps(Now());
      SetHolderIs(Now());
      SetLockHolder(phases[kernel.current].l, Some(kernel.current));
      Go(Free);
    }

    /** `lock_try_acquire` up to its own assignment of the holder. */
    method TryLock(l: nat) returns (success: bool)
      requires Inv(Now()) && Enabled(Now(), TryAcquire(l))
      modifies this`phases, kernel
      ensures Now() == Step(old(Now()), TryAcquire(l)) && Inv(Now())
      ensures success == old(kernel.semas[locks[l].sema].value > 0)
    {
      hide Inv, Enabled, Step;
      TryAcquireKeeps(Now(), l);
      TryAcquireIs(Now(), l);
      success := kernel.TryDown(locks[l].sema);
      if success {
        Go(Taken(l, None));
      }
    }

    /** `lock->holder = NULL`, which `lock_release` does first. */
    method DropHolder(l: nat)
      requires Inv(Now()) && Enabled(Now(), Release(l))
      modifies this
      ensures Now() == Step(old(Now()), Release(l)) && Inv(Now())
    {
      hide Inv, Enabled, Step;
      ReleaseKeeps(Now(), l);
      ReleaseIs(Now(), l);
      SetLockHolder(l, None);
      Go(Released(l, None));
    }

    /** `sema_up (&lock->semaphore)`, which `lock_release` does second. */
    method UpLock()
      requires Inv(Now()) && Enabled(Now(), UnlockUp)
      modifies this`phases, kernel
      ensures Now() == Step(old(Now()), UnlockUp) && Inv(Now())
    {
      hide Inv, Enabled, Step, Scheduler.Inv, Scheduler.Up;
      UnlockUpKeeps(Now());
      UnlockUpIs(Now());
      var p := phases[kernel.current];
      Go(if p.wait.Some? then Sleeping(p.wait.value) else Free);
      kernel.Up(locks[p.l].sema);
    }

    // ------------------------------------------------------------ condition variables

    /** The start of `cond_wait`: a fresh semaphore at the end of the condition's list. */
    method Enlist(c: nat, s: nat)
      requires Inv(Now()) && Enabled(Now(), CondWait(c, s))
      modifies this, kernel
      ensures Now() == Step(old(Now()), CondWait(c, s)) && Inv(Now())
    {
      hide Inv, Enabled, Step;
      CondWaitKeeps(Now(), c, s);
      CondWaitIs(Now(), c, s);
      kernel.Init(s, 0);
      conds := conds[c := conds[c] + [s]];
      tickets := tickets[s := Ticket(kernel.current, Queued(c))];
      Go(Listed(Waiter(c, guards[c], s)));
    }

    /** The first half of the `lock_release` inside `cond_wait`. */
    method DropHolderToWait()
      requires Inv(Now()) && Enabled(Now(), WaitRelease)
      modifies this
      ensures Now() == Step(old(Now()), WaitRelease) && Inv(Now())
    {
      hide Inv, Enabled, Step;
      WaitReleaseKeeps(Now());
      WaitReleaseIs(Now());
      var w := phases[kernel.current].w;
      SetLockHolder(w.lock, None);
      Go(Released(w.lock, Some(w)));
    }

    /** `sema_down (&waiter.semaphore)`, one trip. */
    method DownWaiter() returns (woken: bool)
      requires Inv(Now()) && Enabled(Now(), SleepDown)
      modifies this`phases, kernel
      ensures Now() == Step(old(Now()), SleepDown) && Inv(Now())
    {
      hide Inv, Enabled, Step, Scheduler.Inv, Scheduler.Down;
      SleepDownKeeps(Now());
      SleepDownIs(Now());
      var w := phases[kernel.current].w;
      woken := TryGo(w.sema, Acquiring(w.lock, Some(w)));
    }

    /** `cond_signal`, run without losing the processor between its two halves. */
    method Signal(c: nat)
      requires c in conds && Inv(Now()) && Enabled(Now(), CondSignal(c))
      modifies this, kernel
      ensures old(conds)[c] == [] ==> Now() == old(Now())
      ensures old(conds)[c] != [] ==>
        Possible(old(Now()), [CondSignal(c), SignalUp]) && Now() == Run(old(Now()), [CondSignal(c), SignalUp])
      ensures Inv(Now())
    {
      hide Inv, Enabled, Step, Run, Possible, Scheduler.Inv, Scheduler.Up;
      SignalMay(Now(), c);
      if conds[c] != [] {
        SignalPair(Now(), c);
        var s := conds[c][0];
        conds := conds[c := conds[c][1..]];
        tickets := tickets[s := tickets[s].(mail := Sent)];
        Go(Free);
        kernel.Up(s);
      }
    }

    /** `cond_broadcast`: it ends, and every waiter that was listed has been signalled. */
    method Broadcast(c: nat)
      requires c in conds && Inv(Now()) && Enabled(Now(), CondSignal(c))
      modifies this, kernel
      ensures Inv(Now()) && conds == old(conds)[c := []]
      ensures forall s :: s in old(conds)[c] ==> s in tickets && tickets[s].mail == Sent && s in kernel.semas && kernel.semas[s].value == 1
    {
      hide Inv, Enabled, Step, Run, Possible;
      SignalMay(Now(), c);
      while conds[c] != []
        invariant Inv(Now()) && Enabled(Now(), CondSignal(c))
        invariant c in conds && conds == old(conds)[c := conds[c]] && |conds[c]| <= |old(conds)[c]|
        invariant conds[c] == old(conds)[c][|old(conds)[c]| - |conds[c]|..]
        invariant forall i :: 0 <= i < |old(conds)[c]| - |conds[c]| ==> SentTo(Now(), old(conds)[c][i])
        decreases |conds[c]|
      {
        ghost var m0 := Now();
        SignalEffect(m0, c);
        Signal(c);
      }
    }
  }

  predicate SentTo(m: State, s: nat) {
    s in m.tickets && m.tickets[s].mail == Sent && s in m.core.semas && m.core.semas[s].value == 1
  }

  lemma TwoSteps(m: State, e: Event, f: Event)
    requires Enabled(m, e) && Enabled(Step(m, e), f)
    ensures Possible(m, [e, f]) && Run(m, [e, f]) == Step(Step(m, e), f)
  {
    hide Enabled, Step;
    assert [e, f][1..] == [f] && [f][1..] == [];
    assert Possible(Step(m, e), [f]) && Run(Step(m, e), [f]) == Step(Step(m, e), f);
  }

  // ---------------------------------------------------------------- what each step amounts to

  lemma LockDownIs(m: State)
    requires Inv(m) && Enabled(m, LockDown)
    ensures var p := PhaseOf(m, Me(m));
      && Me(m) in m.phases && p.Acquiring? && p.l in m.locks
      && Scheduler.Inv(m.core) && SchedulerProofs.MayDown(m.core, m.locks[p.l].sema)
      && Step(m, LockDown) ==
        (if m.core.semas[m.locks[p.l].sema].value > 0 then Goes(m, Taken(p.l, p.wait)) else m).(
          core := Scheduler.Down(m.core, m.locks[p.l].sema))
  {
    hide Scheduler.Inv, LocksOk, ThreadsOk, TicketsOk, CondsOk, Scheduler.Down;
  }

  lemma SetHolderIs(m: State)
    requires Enabled(m, SetHolder)
    ensures var p := PhaseOf(m, Me(m));
      Me(m) in m.phases && p.Taken? && p.l in m.locks && Step(m, SetHolder) == Goes(WithHolder(m, p.l, Some(Me(m))), Free)
  {
    hide Scheduler.Step, Scheduler.Enabled;
  }

  lemma TryAcquireIs(m: State, l: nat)
    requires Enabled(m, TryAcquire(l))
    ensures l in m.locks && m.locks[l].sema in m.core.semas
    ensures Step(m, TryAcquire(l)) ==
      if m.core.semas[m.locks[l].sema].value == 0 then m
      else Goes(m, Taken(l, None)).(core := Scheduler.TryDown(m.core, m.locks[l].sema))
  {
    hide Scheduler.TryDown;
  }

  lemma ReleaseIs(m: State, l: nat)
    requires Enabled(m, Release(l))
    ensures l in m.locks && Step(m, Release(l)) == Goes(WithHolder(m, l, None), Released(l, None))
  {
    hide Scheduler.Step, Scheduler.Enabled;
  }

  lemma UnlockUpIs(m: State)
    requires Inv(m) && Enabled(m, UnlockUp)
    ensures var p := PhaseOf(m, Me(m));
      && Me(m) in m.phases && p.Released? && p.l in m.locks && m.locks[p.l].sema in m.core.semas && Scheduler.Inv(m.core)
      && Step(m, UnlockUp) == Goes(m, if p.wait.Some? then Sleeping(p.wait.value) else Free).(
        core := Scheduler.Up(m.core, m.locks[p.l].sema))
  {
    hide Scheduler.Inv, LocksOk, ThreadsOk, TicketsOk, CondsOk, Scheduler.Up;
  }

  lemma CondWaitIs(m: State, c: nat, s: nat)
    requires Enabled(m, CondWait(c, s))
    ensures c in m.conds && c in m.guards
    ensures Step(m, CondWait(c, s)) == Goes(m, Listed(Waiter(c, m.guards[c], s))).(
      core := Scheduler.SemaInit(m.core, s, 0), conds := m.conds[c := m.conds[c] + [s]],
      tickets := m.tickets[s := Ticket(Me(m), Queued(c))])
  {
  }

  lemma WaitReleaseIs(m: State)
    requires Enabled(m, WaitRelease)
    ensures var p := PhaseOf(m, Me(m));
      && Me(m) in m.phases && p.Listed? && p.w.lock in m.locks
      && Step(m, WaitRelease) == Goes(WithHolder(m, p.w.lock, None), Released(p.w.lock, Some(p.w)))
  {
    hide Scheduler.Step, Scheduler.Enabled;
  }

  lemma SleepDownIs(m: State)
    requires Inv(m) && Enabled(m, SleepDown)
    ensures var p := PhaseOf(m, Me(m));
      && Me(m) in m.phases && p.Sleeping? && Scheduler.Inv(m.core) && SchedulerProofs.MayDown(m.core, p.w.sema)
      && Step(m, SleepDown) ==
        (if m.core.semas[p.w.sema].value > 0 then Goes(m, Acquiring(p.w.lock, Some(p.w))) else m).(
          core := Scheduler.Down(m.core, p.w.sema))
  {
    hide Scheduler.Inv, LocksOk, ThreadsOk, TicketsOk, CondsOk, Scheduler.Down;
  }

  lemma SignalMay(m: State, c: nat)
    requires Enabled(m, CondSignal(c))
    ensures c in m.conds && c in m.guards && Holds(m, Me(m), m.guards[c]) && AtRest(m)
    ensures m.conds[c] != [] ==> m.conds[c][0] in m.tickets
  {
    hide Scheduler.Enabled;
  }

  /** The two halves of `cond_signal` can follow each other. */
  lemma SignalUpPossible(m: State, c: nat)
    requires Inv(m) && Enabled(m, CondSignal(c)) && m.conds[c] != []
    ensures Enabled(Step(m, CondSignal(c)), SignalUp)
  {
    hide Scheduler.Inv, Scheduler.Step, LocksOk, ThreadsOk, CondsOk;
    CoreFacts(m.core);
    assert TicketOk(m, m.conds[c][0]);
    hide TicketsOk, TicketOk;
  }

  lemma SignalPair(m: State, c: nat)
    requires Inv(m) && Enabled(m, CondSignal(c)) && m.conds[c] != []
    ensures Possible(m, [CondSignal(c), SignalUp])
    ensures var s := m.conds[c][0]; var r := Run(m, [CondSignal(c), SignalUp]);
      && s in m.core.semas && s in m.tickets && Scheduler.Inv(m.core) && Inv(r)
      && r == Goes(m, Free).(core := Scheduler.Up(m.core, s), conds := m.conds[c := m.conds[c][1..]],
                             tickets := m.tickets[s := m.tickets[s].(mail := Sent)])
  {
    hide Scheduler.Inv, LocksOk, ThreadsOk, TicketsOk, CondsOk, Scheduler.Up, Run, Possible;
    SignalUpPossible(m, c);
    CondSignalKeeps(m, c);
    SignalUpKeeps(Step(m, CondSignal(c)));
    TwoSteps(m, CondSignal(c), SignalUp);
    PairIs(m, c);
  }

  lemma PairIs(m: State, c: nat)
    requires Enabled(m, CondSignal(c)) && m.conds[c] != [] && Enabled(Step(m, CondSignal(c)), SignalUp)
    ensures var s := m.conds[c][0];
      && s in m.core.semas && s in m.tickets
      && Step(Step(m, CondSignal(c)), SignalUp) ==
        Goes(m, Free).(core := Scheduler.Up(m.core, s), conds := m.conds[c := m.conds[c][1..]],
                       tickets := m.tickets[s := m.tickets[s].(mail := Sent)])
  {
    hide Scheduler.Up;
    var m1 := Step(m, CondSignal(c));
    assert m1.core == m.core && PhaseOf(m1, Me(m1)) == Signalling(m.conds[c][0]);
    assert m1.phases[Me(m) := Free] == m.phases[Me(m) := Free];
  }

  lemma QueuedEmpty(m: State, c: nat)
    requires CondsOk(m) && TicketsOk(m) && c in m.conds && m.conds[c] != []
    ensures var s := m.conds[c][0]; s in m.tickets && s in m.core.semas && m.core.semas[s].value == 0
  {
    assert CondOk(m, c) && m.conds[c][0] in m.conds[c] && TicketOk(m, m.conds[c][0]);
  }

  lemma SignalEffect(m: State, c: nat)
    requires Inv(m) && Enabled(m, CondSignal(c)) && m.conds[c] != []
    ensures Possible(m, [CondSignal(c), SignalUp])
    ensures var r := Run(m, [CondSignal(c), SignalUp]);
      && r.conds == m.conds[c := m.conds[c][1..]] && SentTo(r, m.conds[c][0])
      && (forall x :: SentTo(m, x) ==> SentTo(r, x))
      && Enabled(r, CondSignal(c))
  {
    hide Scheduler.Inv, LocksOk, ThreadsOk, TicketsOk, CondsOk, Scheduler.Up, Run, Possible, Enabled, Step;
    SignalMay(m, c);
    SignalPair(m, c);
    QueuedEmpty(m, c);
    var r := Run(m, [CondSignal(c), SignalUp]);
    UpSeen(m.core, m.conds[c][0]);
    TailKnown(r, c);
    StillMay(m, r, c);
  }

  /** An up adds a unit and leaves the running thread and its wants alone. */
  lemma UpSeen(st: Scheduler.State, s: nat)
    requires Scheduler.Inv(st) && s in st.semas
    ensures var r := Scheduler.Up(st, s);
      && r.current == st.current && r.current in r.threads && st.current in st.threads
      && r.threads[r.current].want == st.threads[st.current].want
      && (forall x :: x in st.semas ==> x in r.semas && r.semas[x].value == st.semas[x].value + if x == s then 1 else 0)
  {
    var e := Scheduler.DoUp(s);
    CoreFacts(st);
    StepSemaEffect(st, e);
    StepThreadEffect(st, e, st.current);
    UpKeepsCurrent(st, s);
    hide Scheduler.Inv, Scheduler.Up;
  }

  lemma StillMay(m: State, r: State, c: nat)
    requires AtRest(m) && c in m.conds && c in m.guards && Holds(m, Me(m), m.guards[c])
    requires r.locks == m.locks && r.guards == m.guards && c in r.conds && Me(r) == Me(m) && PhaseOf(r, Me(r)).Free?
    requires Me(r) in r.core.threads && r.core.threads[Me(r)].want == None
    requires r.conds[c] != [] ==> r.conds[c][0] in r.tickets
    ensures Enabled(r, CondSignal(c))
  {
    hide Scheduler.Enabled;
  }

  lemma TailKnown(m: State, c: nat)
    requires CondsOk(m) && c in m.conds
    ensures m.conds[c] != [] ==> m.conds[c][0] in m.tickets
  {
    assert CondOk(m, c);
    assert m.conds[c] != [] ==> m.conds[c][0] in m.conds[c];
  }

  lemma UpKeepsCurrent(st: Scheduler.State, s: nat)
    requires s in st.semas
    ensures Scheduler.Up(st, s).current == st.current
  {
  }
}
