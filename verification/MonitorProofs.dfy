/** What every step of the locks and of the condition variables keeps. */
module MonitorProofs {
  import opened Machine
  import Scheduler
  import SchedulerProofs
  import opened SchedulerEffects
  import opened Monitor

  // ---------------------------------------------------------------- who is inside

  predicate Counts(m: State, t: nat, l: nat) {
    t in m.core.threads && IsInside(m, t, l)
  }

  lemma InsideSame(m: State, r: State, l: nat)
    requires forall t :: Counts(m, t, l) == Counts(r, t, l)
    ensures Inside(r, l) == Inside(m, l)
  {
    assert forall t :: t in Inside(m, l) <==> Counts(m, t, l);
    assert forall t :: t in Inside(r, l) <==> Counts(r, t, l);
  }

  lemma InsideGains(m: State, r: State, l: nat, u: nat)
    requires forall t :: Counts(r, t, l) == (Counts(m, t, l) || t == u)
    requires !Counts(m, u, l)
    ensures |Inside(r, l)| == |Inside(m, l)| + 1
  {
    assert forall t :: t in Inside(m, l) <==> Counts(m, t, l);
    assert forall t :: t in Inside(r, l) <==> Counts(r, t, l);
    assert Inside(r, l) == Inside(m, l) + {u};
  }

  lemma InsideLoses(m: State, r: State, l: nat, u: nat)
    requires forall t :: Counts(r, t, l) == (Counts(m, t, l) && t != u)
    requires Counts(m, u, l)
    ensures |Inside(r, l)| + 1 == |Inside(m, l)|
  {
    assert forall t :: t in Inside(m, l) <==> Counts(m, t, l);
    assert forall t :: t in Inside(r, l) <==> Counts(r, t, l);
    assert Inside(r, l) == Inside(m, l) - {u};
  }

  lemma {:induction false} Fits(a: set<nat>, b: set<nat>)
    requires a <= b
    ensures |a| <= |b|
  {
    if a != {} {
      var x :| x in a;
      Fits(a - {x}, b - {x});
    }
  }

  /** Two threads inside the same lock are one. */
  lemma OnlyOneInside(m: State, l: nat, t: nat, u: nat)
    requires l in m.locks && LockOk(m, l) && Counts(m, t, l) && Counts(m, u, l)
    ensures t == u && m.core.semas[m.locks[l].sema].value == 0
  {
    assert t in Inside(m, l) && u in Inside(m, l);
    Fits({t, u}, Inside(m, l));
    assert t != u ==> |{t, u}| == 2;
  }

  // ---------------------------------------------------------------- what a step leaves alone

  predicate SameValue(m: State, r: State, s: nat) {
    s in m.core.semas ==> s in r.core.semas && r.core.semas[s].value == m.core.semas[s].value
  }

  /** No thread enters or leaves a lock, and none becomes or stops being its holder. */
  lemma LocksLeft(m: State, r: State)
    requires LocksOk(m) && r.locks == m.locks && m.core.threads.Keys <= r.core.threads.Keys
    requires forall l :: l in m.locks ==> SameValue(m, r, m.locks[l].sema)
    requires forall s :: s in r.tickets && s !in m.tickets ==> s !in m.core.semas
    requires forall t, l :: l in m.locks ==> Counts(m, t, l) == Counts(r, t, l)
    ensures LocksOk(r)
  {
    forall l | l in r.locks ensures LockOk(r, l) {
      assert LockOk(m, l);
      InsideSame(m, r, l);
    }
  }

  /** Signals, and threads on their way to their signals, stay where they are. */
  lemma TicketsLeft(m: State, r: State)
    requires TicketsOk(m) && r.tickets == m.tickets && m.core.threads.Keys <= r.core.threads.Keys
    requires forall c :: c in m.conds ==> c in r.conds && r.conds[c] == m.conds[c]
    requires forall s :: s in m.tickets ==> SameValue(m, r, s)
    requires forall t, s :: BeforeWake(m, t, s) == BeforeWake(r, t, s)
    requires forall t, s :: (PhaseOf(m, t) == Signalling(s)) == (PhaseOf(r, t) == Signalling(s))
    ensures TicketsOk(r)
  {
    forall s | s in r.tickets ensures TicketOk(r, s) {
      assert TicketOk(m, s);
    }
  }

  /** Only thread `u` moves on, and not past a signal. */
  ghost predicate OnlyMoves(m: State, r: State, u: nat) {
    && (forall t :: t != u ==> PhaseOf(r, t) == PhaseOf(m, t))
    && (forall s :: BeforeWake(m, u, s) == BeforeWake(r, u, s))
    && !PhaseOf(m, u).Signalling? && !PhaseOf(r, u).Signalling?
  }

  lemma TicketsPassed(m: State, r: State, u: nat)
    requires TicketsOk(m) && r.tickets == m.tickets && r.conds == m.conds && m.core.threads.Keys <= r.core.threads.Keys
    requires forall s :: s in m.tickets ==> SameValue(m, r, s)
    requires OnlyMoves(m, r, u)
    ensures TicketsOk(r)
  {
    hide TicketsOk;
    TicketsLeft(m, r);
  }

  lemma CondsLeft(m: State, r: State)
    requires CondsOk(m) && r.conds == m.conds && r.guards == m.guards && m.locks.Keys <= r.locks.Keys
    requires forall s :: s in m.tickets && m.tickets[s].mail.Queued? ==> s in r.tickets && r.tickets[s].mail == m.tickets[s].mail
    ensures CondsOk(r)
  {
    forall c | c in r.conds ensures CondOk(r, c) {
      assert CondOk(m, c);
    }
  }

  // ---------------------------------------------------------------- locks

  lemma SetHolderLocks(m: State, l: nat, r: State)
    requires LocksOk(m) && l in m.locks && Counts(m, Me(m), l)
    requires r == Goes(WithHolder(m, l, Some(Me(m))), Free)
    requires forall k :: IsInside(m, Me(m), k) ==> k == l || Holds(m, Me(m), k)
    ensures LocksOk(r)
  {
    forall k | k in r.locks ensures LockOk(r, k) {
      assert LockOk(m, k);
      if k == l && m.locks[l].holder.Some? {
        OnlyOneInside(m, l, Me(m), m.locks[l].holder.value);
      }
      InsideSame(m, r, k);
    }
  }

  lemma SetHolderThreads(m: State, l: nat, r: State)
    requires ThreadsOk(m) && LocksOk(m) && l in m.locks && Counts(m, Me(m), l)
    requires r == Goes(WithHolder(m, l, Some(Me(m))), Free)
    requires m.core.threads[Me(m)].want == None
    ensures ThreadsOk(r)
  {
    forall t | t in r.core.threads ensures ThreadOk(r, t) {
      assert ThreadOk(m, t) && LockOk(m, l);
      if t != Me(m) && (PhaseOf(m, t).Taken? || PhaseOf(m, t).Released?) && PhaseOf(m, t).l == l {
        OnlyOneInside(m, l, Me(m), t);
      }
    }
  }

  lemma SetHolderFacts(m: State, l: nat, r: State)
    requires ThreadsOk(m) && PhaseOf(m, Me(m)).Taken? && PhaseOf(m, Me(m)).l == l && l in m.locks
    requires Me(m) in m.core.threads
    requires r == Goes(WithHolder(m, l, Some(Me(m))), Free)
    ensures Counts(m, Me(m), l) && m.core.threads[Me(m)].want == None
    ensures forall k :: IsInside(m, Me(m), k) ==> k == l || Holds(m, Me(m), k)
    ensures OnlyMoves(m, r, Me(m))
  {
    assert ThreadOk(m, Me(m));
  }

  lemma SetHolderKeeps(m: State)
    requires Inv(m) && Enabled(m, SetHolder)
    ensures Inv(Step(m, SetHolder))
  {
    hide Scheduler.Inv, Scheduler.Step, Scheduler.Enabled, ThreadsOk, LocksOk;
    hide TicketsOk, CondsOk, OnlyMoves, IsInside, Counts;
    var r := Step(m, SetHolder);
    var l := PhaseOf(m, Me(m)).l;
    CoreFacts(m.core);
    SetHolderFacts(m, l, r);
    SetHolderLocks(m, l, r);
    SetHolderThreads(m, l, r);
    TicketsPassed(m, r, Me(m));
    CondsLeft(m, r);
  }

  // ---------------------------------------------------------------- the other threads

  /** What the other threads' wants and statuses may do when thread `u` takes a step. */
  ghost predicate CoreMoves(m: State, r: State, u: nat) {
    && m.core.threads.Keys <= r.core.threads.Keys && u in m.core.threads
    && (forall t :: t in m.core.threads && t != u ==>
          r.core.threads[t].want == m.core.threads[t].want && (Stopped(r.core.threads[t].status) ==> Stopped(m.core.threads[t].status)))
    && (forall t :: t in r.core.threads && t !in m.core.threads ==> r.core.threads[t].want == None)
    && (forall t :: t in m.core.threads && m.core.threads[t].want.Some? ==> m.core.threads[t].want.value in m.core.semas)
  }

  /** What the locks and the tickets may do: new ones use new semaphores, and only a waiter on a list or in
      the hands of `u` gets other mail. */
  ghost predicate TablesMove(m: State, r: State, u: nat) {
    && (forall l :: l in m.locks ==> l in r.locks && r.locks[l] == m.locks[l])
    && (forall l :: l in r.locks && l !in m.locks ==> r.locks[l].sema !in m.core.semas)
    && (forall s :: s in r.tickets && s !in m.tickets ==> s !in m.core.semas)
    && (forall s :: s in m.tickets ==>
          (s in r.tickets && r.tickets[s].owner == m.tickets[s].owner &&
           (r.tickets[s].mail == m.tickets[s].mail || m.tickets[s].mail.Queued? || m.tickets[s].mail == Popped(u))))
  }

  lemma OtherThreads(m: State, r: State, u: nat)
    requires ThreadsOk(m) && CoreMoves(m, r, u) && TablesMove(m, r, u)
    requires forall t :: t != u ==> PhaseOf(r, t) == PhaseOf(m, t)
    requires forall t :: t in r.phases ==> t in m.phases || t == u
    requires ThreadOk(r, u)
    ensures ThreadsOk(r)
  {
    forall t | t in r.core.threads ensures ThreadOk(r, t) {
      if t != u && t in m.core.threads {
        assert ThreadOk(m, t);
      }
    }
  }

  lemma CoreFacts(st: Scheduler.State)
    requires Scheduler.Inv(st)
    ensures st.current in st.threads && st.threads[st.current].status == Scheduler.Running
    ensures forall t :: t in st.threads && st.threads[t].want.Some? ==> st.threads[t].want.value in st.semas
  {
    assert Scheduler.SemasOk(st);
  }

  lemma EffectMoves(m: State, r: State, e: Scheduler.Event)
    requires Scheduler.Inv(m.core) && Scheduler.Enabled(m.core, e) && r.core == Scheduler.Step(m.core, e)
    ensures CoreMoves(m, r, Me(m)) && Scheduler.Inv(r.core)
    ensures r.core.threads[Me(m)].want == WantAfter(m.core, e)
    ensures Stopped(r.core.threads[Me(m)].status) ==> e.DoBlock? || e.DoExit? || WantAfter(m.core, e).Some?
  {
    hide Scheduler.Step, Scheduler.Inv, Scheduler.Enabled, WantAfter, SemaEffect;
    CoreFacts(m.core);
    StepEffect(m.core, e);
    SchedulerProofs.StepKeeps(m.core, e);
    assert ThreadEffect(m.core, e, r.core, Me(m));
  }

  lemma EffectValues(m: State, r: State, e: Scheduler.Event)
    requires Scheduler.Enabled(m.core, e) && r.core == Scheduler.Step(m.core, e)
    ensures forall s :: s in m.core.semas ==> s in r.core.semas && r.core.semas[s].value == ValueAfter(m.core, e, s)
    ensures e.DoSemaInit? ==> e.s !in m.core.semas && e.s in r.core.semas && r.core.semas[e.s].value == e.value
  {
    if e.DoSemaInit? {
      FreshSema(m.core, e);
    }
    hide Scheduler.Step, Scheduler.Inv, Scheduler.Enabled, WantAfter, ThreadEffect, ValueAfter;
    StepEffect(m.core, e);
  }

  lemma FreshSema(st: Scheduler.State, e: Scheduler.Event)
    requires Scheduler.Enabled(st, e) && e.DoSemaInit?
    ensures e.s !in st.semas
  {
  }

  lemma NoMoves(m: State, r: State)
    requires Scheduler.Inv(m.core) && r.core == m.core
    ensures CoreMoves(m, r, Me(m)) && !Stopped(m.core.threads[Me(m)].status)
  {
    CoreFacts(m.core);
    hide Scheduler.Inv;
  }

  // ---------------------------------------------------------------- lock steps

  lemma AcquireKeeps(m: State, l: nat)
    requires Inv(m) && Enabled(m, Acquire(l))
    ensures Inv(Step(m, Acquire(l)))
  {
    hide Scheduler.Inv, Scheduler.Step, Scheduler.Enabled, ThreadsOk;
    hide LocksOk, TicketsOk, CondsOk, TablesMove, CoreMoves;
    var r := Step(m, Acquire(l));
    NoMoves(m, r);
    CoreFacts(m.core);
    RestGoes(m, Acquiring(l, None), l);
    OtherThreads(m, r, Me(m));
  }

  /** A thread that is about to take or to queue for a lock changes nobody's standing. */
  lemma RestGoes(m: State, p: Phase, l: nat)
    requires LocksOk(m) && TicketsOk(m) && CondsOk(m) && PhaseOf(m, Me(m)).Free? && p == Acquiring(l, None)
    ensures var r := Goes(m, p); LocksOk(r) && TicketsOk(r) && CondsOk(r) && TablesMove(m, r, Me(m))
  {
    var r := Goes(m, p);
    assert OnlyMoves(m, r, Me(m));
    assert forall t, k :: Counts(m, t, k) == Counts(r, t, k);
    hide LocksOk, TicketsOk, CondsOk, Counts, OnlyMoves;
    LocksLeft(m, r);
    TicketsPassed(m, r, Me(m));
    CondsLeft(m, r);
  }

  /** A lock with its unit in its semaphore has nobody inside. */
  lemma FreeLock(m: State, l: nat)
    requires l in m.locks && LockOk(m, l) && m.core.semas[m.locks[l].sema].value > 0
    ensures m.locks[l].holder == None && forall t :: !Counts(m, t, l)
  {
    assert forall t :: t in Inside(m, l) <==> Counts(m, t, l);
    assert Inside(m, l) == {};
    if m.locks[l].holder.Some? {
      assert Counts(m, m.locks[l].holder.value, l);
    }
  }

  ghost predicate OtherPhasesSame(m: State, r: State, u: nat) {
    && (forall t :: t != u ==> PhaseOf(r, t) == PhaseOf(m, t))
    && (forall t :: t in r.phases ==> t in m.phases || t == u)
  }

  lemma TakeLocks(m: State, r: State, l: nat, u: nat)
    requires LocksOk(m) && l in m.locks && r.locks == m.locks && r.tickets == m.tickets && u in m.core.threads
    requires m.core.threads.Keys <= r.core.threads.Keys
    requires forall t :: t in r.core.threads && t !in m.core.threads ==> t !in m.phases
    requires m.core.semas[m.locks[l].sema].value > 0
    requires m.locks[l].sema in r.core.semas
    requires r.core.semas[m.locks[l].sema].value == m.core.semas[m.locks[l].sema].value - 1
    requires forall k :: k in m.locks && k != l ==> SameValue(m, r, m.locks[k].sema)
    requires OtherPhasesSame(m, r, u) && PhaseOf(r, u).Taken? && PhaseOf(r, u).l == l
    requires PhaseOf(m, u).Free? || PhaseOf(m, u).Acquiring?
    ensures LocksOk(r)
  {
    FreeLock(m, l);
    forall k | k in r.locks ensures LockOk(r, k) {
      assert LockOk(m, k);
      assert forall t :: Counts(r, t, k) == (Counts(m, t, k) || (k == l && t == u));
      if k == l {
        InsideGains(m, r, k, u);
      } else {
        InsideSame(m, r, k);
      }
    }
  }

  /** A successful down on a lock. */
  lemma TakesKeeps(m: State, r: State, l: nat, wait: Option<Waiter>, e: Scheduler.Event)
    requires Inv(m) && l in m.locks && Scheduler.Enabled(m.core, e)
    requires e == Scheduler.DoDown(m.locks[l].sema) || e == Scheduler.DoTryDown(m.locks[l].sema)
    requires m.locks[l].sema in m.core.semas && m.core.semas[m.locks[l].sema].value > 0
    requires (e.DoDown? && PhaseOf(m, Me(m)) == Acquiring(l, wait)) || (AtRest(m) && wait == None)
    requires r == Goes(m, Taken(l, wait)).(core := Scheduler.Step(m.core, e))
    ensures Inv(r)
  {
    hide Scheduler.Inv, Scheduler.Step, Scheduler.Enabled, ThreadsOk, LocksOk;
    hide TicketsOk, CondsOk, CoreMoves, ThreadOk, OnlyMoves;
    CoreFacts(m.core);
    EffectMoves(m, r, e);
    EffectValues(m, r, e);
    TakesFacts(m, r, l, wait);
    OwnSemas(m, l);
    TakeLocks(m, r, l, Me(m));
    TicketsPassed(m, r, Me(m));
    CondsLeft(m, r);
    OtherThreads(m, r, Me(m));
  }

  lemma TakesFacts(m: State, r: State, l: nat, wait: Option<Waiter>)
    requires LocksOk(m) && ThreadsOk(m) && l in m.locks && Me(m) in m.core.threads
    requires m.locks[l].sema in m.core.semas && m.core.semas[m.locks[l].sema].value > 0
    requires PhaseOf(m, Me(m)) == Acquiring(l, wait) || (PhaseOf(m, Me(m)).Free? && wait == None)
    requires r == Goes(m, Taken(l, wait)).(core := r.core) && CoreMoves(m, r, Me(m))
    requires r.core.threads[Me(m)].want == None && !Stopped(r.core.threads[Me(m)].status)
    ensures OnlyMoves(m, r, Me(m))
    ensures ThreadOk(r, Me(m)) && (forall t :: t in m.phases ==> t in m.core.threads)
    ensures m.core.threads.Keys <= r.core.threads.Keys
  {
    FreeLock(m, l);
    assert ThreadOk(m, Me(m)) && LockOk(m, l);
  }

  /** No two locks and no waiter share a semaphore. */
  lemma OwnSemas(m: State, l: nat)
    requires LocksOk(m) && TicketsOk(m) && l in m.locks
    ensures forall k :: k in m.locks && k != l ==> m.locks[k].sema != m.locks[l].sema && m.locks[k].sema in m.core.semas
    ensures forall s :: s in m.tickets ==> s != m.locks[l].sema && s in m.core.semas
  {
    forall k | k in m.locks && k != l ensures m.locks[k].sema != m.locks[l].sema && m.locks[k].sema in m.core.semas {
      assert LockOk(m, k);
    }
    forall s | s in m.tickets ensures s != m.locks[l].sema && s in m.core.semas {
      assert TicketOk(m, s) && LockOk(m, l);
    }
  }

  lemma TryAcquireKeeps(m: State, l: nat)
    requires Inv(m) && Enabled(m, TryAcquire(l))
    ensures Inv(Step(m, TryAcquire(l)))
  {
    hide Scheduler.Inv, Scheduler.Step, ThreadsOk, LocksOk, TicketsOk, CondsOk;
    var s := m.locks[l].sema;
    if m.core.semas[s].value > 0 {
      TakesKeeps(m, Step(m, TryAcquire(l)), l, None, Scheduler.DoTryDown(s));
    }
  }

  /** A step in which nothing but the core changes, and no semaphore of a lock or of a waiter. */
  lemma CoreKeeps(m: State, r: State, e: Scheduler.Event)
    requires Inv(m) && Scheduler.Enabled(m.core, e) && r == m.(core := Scheduler.Step(m.core, e))
    requires forall l :: l in m.locks ==> SameValue(m, r, m.locks[l].sema)
    requires forall s :: s in m.tickets ==> SameValue(m, r, s)
    requires Me(m) in r.core.threads ==> ThreadOk(r, Me(m))
    ensures Inv(r)
  {
    hide Scheduler.Inv, Scheduler.Step, Scheduler.Enabled, ThreadsOk, LocksOk, TicketsOk, CondsOk, ThreadOk, SameValue;
    CoreFacts(m.core);
    EffectMoves(m, r, e);
    SameCounts(m, r);
    LocksLeft(m, r);
    TicketsLeft(m, r);
    CondsLeft(m, r);
    OtherThreads(m, r, Me(m));
  }

  lemma SameCounts(m: State, r: State)
    requires ThreadsOk(m) && LocksOk(m) && r.phases == m.phases && r.locks == m.locks
    requires m.core.threads.Keys <= r.core.threads.Keys
    ensures forall t, l :: l in m.locks ==> Counts(m, t, l) == Counts(r, t, l)
  {
    forall t, l | l in m.locks ensures Counts(m, t, l) == Counts(r, t, l) {
      assert LockOk(m, l);
    }
  }

  lemma LockDownKeeps(m: State)
    requires Inv(m) && Enabled(m, LockDown)
    ensures Inv(Step(m, LockDown))
  {
    hide Scheduler.Inv, Scheduler.Step, ThreadsOk, LocksOk, TicketsOk, CondsOk, ThreadOk, WantAfter, ValueAfter;
    var p := PhaseOf(m, Me(m));
    var s := m.locks[p.l].sema;
    var r := Step(m, LockDown);
    var e := Scheduler.DoDown(s);
    if m.core.semas[s].value > 0 {
      TakesKeeps(m, r, p.l, p.wait, e);
    } else {
      EffectMoves(m, r, e);
      EffectValues(m, r, e);
      DownWaits(m, r, s);
      CoreKeeps(m, r, e);
    }
  }

  /** Waiting changes no semaphore's value, and the thread now waits where its phase says. */
  lemma DownWaits(m: State, r: State, s: nat)
    requires ThreadsOk(m) && LocksOk(m) && TicketsOk(m)
    requires Scheduler.Enabled(m.core, Scheduler.DoDown(s)) && m.core.semas[s].value == 0 && Me(m) in r.core.threads
    requires r == m.(core := r.core) && WantOk(m, Me(m), s)
    requires r.core.threads[Me(m)].want == WantAfter(m.core, Scheduler.DoDown(s))
    requires forall x :: x in m.core.semas ==> x in r.core.semas && r.core.semas[x].value == ValueAfter(m.core, Scheduler.DoDown(s), x)
    ensures ThreadOk(r, Me(m))
    ensures forall l :: l in m.locks ==> SameValue(m, r, m.locks[l].sema)
    ensures forall x :: x in m.tickets ==> SameValue(m, r, x)
  {
    assert ThreadOk(m, Me(m));
  }

  /** The up of a release: the thread leaves the lock and its unit comes back. */
  lemma LeaveLocks(m: State, r: State, l: nat, u: nat)
    requires LocksOk(m) && l in m.locks && r.locks == m.locks && r.tickets == m.tickets && u in m.core.threads
    requires m.core.threads.Keys <= r.core.threads.Keys
    requires forall t :: t in r.core.threads && t !in m.core.threads ==> t !in m.phases
    requires m.locks[l].sema in m.core.semas && m.locks[l].sema in r.core.semas
    requires r.core.semas[m.locks[l].sema].value == m.core.semas[m.locks[l].sema].value + 1
    requires forall k :: k in m.locks && k != l ==> SameValue(m, r, m.locks[k].sema)
    requires OtherPhasesSame(m, r, u) && (PhaseOf(r, u).Free? || PhaseOf(r, u).Sleeping?)
    requires PhaseOf(m, u).Released? && PhaseOf(m, u).l == l && m.locks[l].holder == None
    ensures LocksOk(r)
  {
    forall k | k in r.locks ensures LockOk(r, k) {
      assert LockOk(m, k);
      assert r.locks[k].holder.Some? ==> r.locks[k].holder.value in m.core.threads;
      assert forall t :: Counts(r, t, k) == (Counts(m, t, k) && !(k == l && t == u));
      if k == l {
        InsideLoses(m, r, k, u);
      } else {
        InsideSame(m, r, k);
      }
    }
  }

  lemma GrowsOnly(m: State, r: State)
    requires CoreMoves(m, r, Me(m))
    ensures m.core.threads.Keys <= r.core.threads.Keys
  {
  }

  lemma UnlockUpKeeps(m: State)
    requires Inv(m) && Enabled(m, UnlockUp)
    ensures Inv(Step(m, UnlockUp))
  {
    hide Scheduler.Inv, Scheduler.Step, Scheduler.Enabled, ThreadsOk, LocksOk;
    hide TicketsOk, CondsOk, CoreMoves, ThreadOk, OnlyMoves;
    var r := Step(m, UnlockUp);
    var l := PhaseOf(m, Me(m)).l;
    var e := Scheduler.DoUp(m.locks[l].sema);
    CoreFacts(m.core);
    EffectMoves(m, r, e);
    EffectValues(m, r, e);
    assert m.core.threads.Keys <= r.core.threads.Keys by {
      GrowsOnly(m, r);
    }
    UnlockFacts(m, r, l);
    UnlockMoves(m, r);
    OwnSemas(m, l);
    LeaveLocks(m, r, l, Me(m));
    TicketsPassed(m, r, Me(m));
    CondsLeft(m, r);
    OtherThreads(m, r, Me(m));
  }

  lemma UnlockFacts(m: State, r: State, l: nat)
    requires LocksOk(m) && ThreadsOk(m) && l in m.locks && Me(m) in m.core.threads
    requires PhaseOf(m, Me(m)).Released? && PhaseOf(m, Me(m)).l == l
    requires var wait := PhaseOf(m, Me(m)).wait; r == Goes(m, if wait.Some? then Sleeping(wait.value) else Free).(core := r.core)
    requires m.core.threads.Keys <= r.core.threads.Keys && r.core.threads[Me(m)].want == m.core.threads[Me(m)].want
    requires !Stopped(r.core.threads[Me(m)].status) || r.core.threads[Me(m)].want.Some?
    ensures m.locks[l].holder == None && m.locks[l].sema in m.core.semas
    ensures ThreadOk(r, Me(m)) && (forall t :: t in m.phases ==> t in m.core.threads)
  {
    assert ThreadOk(m, Me(m)) && LockOk(m, l);
    hide LockOk;
  }

  lemma UnlockMoves(m: State, r: State)
    requires PhaseOf(m, Me(m)).Released?
    requires var wait := PhaseOf(m, Me(m)).wait; r == Goes(m, if wait.Some? then Sleeping(wait.value) else Free).(core := r.core)
    ensures OnlyMoves(m, r, Me(m))
  {
  }

  /** The first half of a release, alone or inside `cond_wait`: the thread stays inside the lock. */
  lemma ReleasesKeeps(m: State, r: State, l: nat, wait: Option<Waiter>)
    requires Inv(m) && Holds(m, Me(m), l) && Me(m) in m.core.threads && m.core.threads[Me(m)].want == None
    requires if wait.Some? then wait.value.lock == l && PhaseOf(m, Me(m)) == Listed(wait.value) else AtRest(m)
    requires r == Goes(WithHolder(m, l, None), Released(l, wait))
    ensures Inv(r)
  {
    hide Scheduler.Inv, ThreadsOk, LocksOk, TicketsOk, CondsOk, ThreadOk, OnlyMoves;
    CoreFacts(m.core);
    ReleasesThreads(m, r, l, wait);
    ReleasesLocks(m, r, l, wait);
    ReleasesMoves(m, r, l, wait);
    TicketsPassed(m, r, Me(m));
    CondsLeft(m, r);
  }

  lemma ReleasesMoves(m: State, r: State, l: nat, wait: Option<Waiter>)
    requires l in m.locks && r == Goes(WithHolder(m, l, None), Released(l, wait))
    requires (PhaseOf(m, Me(m)).Free? && wait == None) || (wait.Some? && PhaseOf(m, Me(m)) == Listed(wait.value))
    ensures OnlyMoves(m, r, Me(m))
  {
  }

  lemma ReleasesLocks(m: State, r: State, l: nat, wait: Option<Waiter>)
    requires LocksOk(m) && Holds(m, Me(m), l) && Me(m) in m.core.threads
    requires PhaseOf(m, Me(m)).Free? || PhaseOf(m, Me(m)).Listed?
    requires r == Goes(WithHolder(m, l, None), Released(l, wait))
    ensures LocksOk(r)
  {
    forall k | k in r.locks ensures LockOk(r, k) {
      assert LockOk(m, k);
      assert forall t :: Counts(m, t, k) == Counts(r, t, k);
      InsideSame(m, r, k);
    }
  }

  lemma ReleasesThreads(m: State, r: State, l: nat, wait: Option<Waiter>)
    requires ThreadsOk(m) && LocksOk(m) && Holds(m, Me(m), l) && Me(m) in m.core.threads
    requires !Stopped(m.core.threads[Me(m)].status)
    requires r == Goes(WithHolder(m, l, None), Released(l, wait)) && m.core.threads[Me(m)].want == None
    requires wait.Some? ==> wait.value.lock == l && PhaseOf(m, Me(m)) == Listed(wait.value)
    ensures ThreadsOk(r)
  {
    forall t | t in r.core.threads ensures ThreadOk(r, t) {
      assert ThreadOk(m, t) && ThreadOk(m, Me(m));
    }
  }

  lemma ReleaseKeeps(m: State, l: nat)
    requires Inv(m) && Enabled(m, Release(l))
    ensures Inv(Step(m, Release(l)))
  {
    hide Inv, Scheduler.Step, Scheduler.Enabled;
    ReleasesKeeps(m, Step(m, Release(l)), l, None);
  }

  lemma WaitReleaseKeeps(m: State)
    requires Inv(m) && Enabled(m, WaitRelease)
    ensures Inv(Step(m, WaitRelease))
  {
    hide Scheduler.Inv, Scheduler.Step, Scheduler.Enabled, ThreadsOk, LocksOk, TicketsOk, CondsOk;
    var w := PhaseOf(m, Me(m)).w;
    CoreFacts(m.core);
    ListedFacts(m);
    ReleasesKeeps(m, Step(m, WaitRelease), w.lock, Some(w));
  }

  lemma ListedFacts(m: State)
    requires ThreadsOk(m) && Me(m) in m.core.threads && PhaseOf(m, Me(m)).Listed?
    ensures m.core.threads[Me(m)].want == None && Holds(m, Me(m), PhaseOf(m, Me(m)).w.lock)
  {
    assert ThreadOk(m, Me(m));
  }
}
