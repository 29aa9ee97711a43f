/** Whole runs of the monitors: mutual exclusion, and what becomes of every signal. */
module MonitorRuns {
  import opened Machine
  import Scheduler
  import opened Monitor
  import opened MonitorProofs
  import opened ConditionProofs

  // ---------------------------------------------------------------- start-up

  /** Two threads, `main` running and the idle thread blocked, and nothing else yet. */
  function Boot(policy: Scheduler.Policy): State {
    State(
      Scheduler.State(policy, map[0 := Scheduler.Thread(Scheduler.Running, 31, None), 1 := Scheduler.Thread(Scheduler.Blocked, 0, None)],
                      [], 0, 1, map[]),
      map[], map[], map[], map[], map[])
  }

  lemma BootOk(policy: Scheduler.Policy)
    ensures Inv(Boot(policy))
  {
    var m := Boot(policy);
    assert forall t :: t in m.core.threads ==> t == 0 || t == 1;
    assert Scheduler.OneRuns(m.core) && Scheduler.ReadyOk(m.core) && Scheduler.SemasOk(m.core);
  }

  // ---------------------------------------------------------------- mutual exclusion

  /** After any run, at most one thread is between its down and its up on a lock, and while one is, the
      lock's semaphore is empty. */
  lemma MutualExclusion(m: State, evs: seq<Event>, l: nat, t: nat, u: nat)
    requires Inv(m) && Possible(m, evs) && l in Run(m, evs).locks
    requires t in Run(m, evs).core.threads && IsInside(Run(m, evs), t, l)
    ensures var r := Run(m, evs); r.locks[l].sema in r.core.semas && r.core.semas[r.locks[l].sema].value == 0
    ensures u in Run(m, evs).core.threads && IsInside(Run(m, evs), u, l) ==> u == t
    ensures Run(m, evs).locks[l].holder.Some? ==> Run(m, evs).locks[l].holder == Some(t)
  {
    RunKeeps(m, evs);
    var r := Run(m, evs);
    assert LockOk(r, l);
    OnlyOneInside(r, l, t, t);
    if u in r.core.threads && IsInside(r, u, l) {
      OnlyOneInside(r, l, t, u);
    }
    if r.locks[l].holder.Some? {
      OnlyOneInside(r, l, t, r.locks[l].holder.value);
    }
  }

  /** The unit of a lock is never lost: when nobody is inside, the semaphore holds it. */
  lemma LockUnit(m: State, evs: seq<Event>, l: nat)
    requires Inv(m) && Possible(m, evs) && l in Run(m, evs).locks
    ensures var r := Run(m, evs);
      r.locks[l].sema in r.core.semas && r.core.semas[r.locks[l].sema].value + |Inside(r, l)| == 1
  {
    RunKeeps(m, evs);
    assert LockOk(Run(m, evs), l);
  }

  // ---------------------------------------------------------------- signals are kept

  /** Only its owner is ever in the loop of a waiter's semaphore. */
  lemma OnlyOwnerSleeps(m: State, w: Waiter, t: nat, u: nat)
    requires ThreadsOk(m) && t in m.core.threads && PhaseOf(m, t) == Sleeping(w)
    requires u in m.core.threads && m.core.threads[u].want == Some(w.sema)
    requires LocksOk(m)
    ensures u == t
  {
    assert ThreadOk(m, t) && ThreadOk(m, u);
    assert forall l :: l in m.locks ==> LockOk(m, l);
  }

  lemma NobodyElseWoken(m: State, t: nat, w: Waiter)
    requires LocksOk(m) && ThreadsOk(m) && t in m.core.threads && PhaseOf(m, t) == Sleeping(w)
    requires m.core.threads[t].status == Scheduler.Blocked
    ensures Scheduler.Awaits(m.core, t, w.sema) && Scheduler.Woken(m.core, w.sema) == {}
  {
    assert ThreadOk(m, t);
    hide LocksOk, ThreadsOk;
    forall u | u in m.core.threads && m.core.threads[u].want == Some(w.sema) ensures u == t {
      OnlyOwnerSleeps(m, w, t, u);
    }
  }

  /** A sleeper whose semaphore holds a unit is not blocked. */
  lemma SleeperAwake(m: State, t: nat, w: Waiter)
    requires Inv(m) && t in m.core.threads && PhaseOf(m, t) == Sleeping(w)
    requires w.sema in m.core.semas && m.core.semas[w.sema].value > 0
    ensures m.core.threads[t].status != Scheduler.Blocked
  {
    hide LocksOk, ThreadsOk, TicketsOk, CondsOk;
    assert Scheduler.WaitersOk(m.core, w.sema) && Scheduler.NoneLost(m.core, w.sema);
    if m.core.threads[t].status == Scheduler.Blocked {
      NobodyElseWoken(m, t, w);
    }
  }

  lemma SleeperUnit(m: State, t: nat, w: Waiter)
    requires ThreadsOk(m) && TicketsOk(m) && t in m.core.threads && PhaseOf(m, t) == Sleeping(w)
    ensures w.sema in m.tickets && w.sema in m.core.semas
    ensures m.core.semas[w.sema].value == if m.tickets[w.sema].mail.Sent? then 1 else 0
  {
    assert ThreadOk(m, t) && TicketOk(m, w.sema);
  }

  lemma SleepDownPhase(m: State)
    requires Enabled(m, SleepDown)
    ensures PhaseOf(m, Me(m)).w.sema in m.core.semas
    ensures var w := PhaseOf(m, Me(m)).w;
      PhaseOf(Step(m, SleepDown), Me(m)) == if m.core.semas[w.sema].value == 0 then Sleeping(w) else Acquiring(w.lock, Some(w))
  {
    hide Scheduler.Step;
  }

  /** A waiter's next test of its own semaphore succeeds exactly when it has been signalled, also when the
      signal came between its release of the lock and its down; a signalled waiter is not left blocked. */
  lemma SignalsAreKept(m: State, evs: seq<Event>, t: nat, w: Waiter)
    requires Inv(m) && Possible(m, evs)
    requires var r := Run(m, evs); t in r.core.threads && PhaseOf(r, t) == Sleeping(w)
    ensures var r := Run(m, evs); w.sema in r.tickets && w.sema in r.core.semas
    ensures var r := Run(m, evs); r.tickets[w.sema].mail.Sent? ==> r.core.threads[t].status != Scheduler.Blocked
    ensures var r := Run(m, evs);
      Enabled(r, SleepDown) && Me(r) == t ==>
        (r.tickets[w.sema].mail.Sent? <==> PhaseOf(Step(r, SleepDown), t) == Acquiring(w.lock, Some(w)))
  {
    hide Run, Possible, Enabled, Step, Scheduler.Inv, LocksOk, ThreadsOk, TicketsOk, CondsOk;
    RunKeeps(m, evs);
    var r := Run(m, evs);
    SleeperUnit(r, t, w);
    if r.tickets[w.sema].mail.Sent? {
      SleeperAwake(r, t, w);
    }
    if Enabled(r, SleepDown) {
      SleepDownPhase(r);
    }
  }

  lemma HolderAlone(m: State, l: nat)
    requires LocksOk(m) && Holds(m, Me(m), l) && Me(m) in m.core.threads
    ensures Inside(m, l) == {Me(m)}
  {
    assert Counts(m, Me(m), l) && LockOk(m, l);
    forall u | u in Inside(m, l) ensures u == Me(m) {
      OnlyOneInside(m, l, Me(m), u);
    }
    assert Me(m) in Inside(m, l);
  }

  lemma ReturnFacts(m: State, l: nat, w: Waiter)
    requires ThreadsOk(m) && Me(m) in m.core.threads && PhaseOf(m, Me(m)) == Taken(l, Some(w)) && Enabled(m, SetHolder)
    ensures l == w.lock && w.sema in m.tickets && m.tickets[w.sema] == Ticket(Me(m), Sent)
    ensures var n := Step(m, SetHolder); Holds(n, Me(m), w.lock) && PhaseOf(n, Me(m)).Free? && n.core == m.core
  {
    assert ThreadOk(m, Me(m));
    hide Scheduler.Step, Scheduler.Enabled;
  }

  /** `cond_wait` returns only after its signal, holding the lock again, alone. */
  lemma WaitReturnsHolding(m: State, evs: seq<Event>, l: nat, w: Waiter)
    requires Inv(m) && Possible(m, evs)
    requires var r := Run(m, evs); Enabled(r, SetHolder) && PhaseOf(r, Me(r)) == Taken(l, Some(w))
    ensures var r := Run(m, evs);
      && l == w.lock && w.sema in r.tickets && r.tickets[w.sema] == Ticket(Me(r), Sent)
      && Holds(Step(r, SetHolder), Me(r), w.lock) && PhaseOf(Step(r, SetHolder), Me(r)).Free?
      && Inside(Step(r, SetHolder), w.lock) == {Me(r)}
  {
    hide Run, Possible, Enabled, Step, Scheduler.Inv, LocksOk, ThreadsOk, TicketsOk, CondsOk, Inside;
    RunKeeps(m, evs);
    var r := Run(m, evs);
    CoreFacts(r.core);
    ReturnFacts(r, l, w);
    StepKeeps(r, SetHolder);
    HolderAlone(Step(r, SetHolder), w.lock);
  }

  /** Whether an event is the up that signals a given waiter. */
  predicate Signals(m: State, e: Event, s: nat) {
    e.SignalUp? && PhaseOf(m, Me(m)) == Signalling(s)
  }

  function SignalCount(m: State, evs: seq<Event>, s: nat): nat
    requires Possible(m, evs)
    decreases |evs|
  {
    if evs == [] then 0 else (if Signals(m, evs[0], s) then 1 else 0) + SignalCount(Step(m, evs[0]), evs[1..], s)
  }

  function WasSent(m: State, s: nat): nat
    requires s in m.tickets
  {
    if m.tickets[s].mail.Sent? then 1 else 0
  }

  lemma MailFacts(m: State, e: Event)
    requires Inv(m) && Enabled(m, e)
    ensures e.CondSignal? ==>
      e.c in m.conds && (m.conds[e.c] != [] ==> m.conds[e.c][0] in m.tickets && m.tickets[m.conds[e.c][0]].mail.Queued?)
    ensures e.SignalUp? ==>
      PhaseOf(m, Me(m)).Signalling? && PhaseOf(m, Me(m)).sema in m.tickets && m.tickets[PhaseOf(m, Me(m)).sema].mail.Popped?
    ensures e.CondWait? ==> e.sema !in m.tickets
  {
    hide Scheduler.Step, Scheduler.Enabled, Scheduler.Inv, LocksOk, ThreadsOk, TicketsOk;
    match e
    case CondSignal(c) =>
      assert CondOk(m, c) && (m.conds[c] != [] ==> m.conds[c][0] in m.conds[c]);
    case SignalUp =>
      CoreFacts(m.core);
      SignallerFacts(m);
    case CondWait(c, s) =>
      FreshTicket(m, s);
    case _ =>
  }

  lemma TicketsAfter(m: State, e: Event)
    requires Enabled(m, e)
    ensures e.CondWait? ==> Step(m, e).tickets == m.tickets[e.sema := Ticket(Me(m), Queued(e.c))]
    ensures e.CondSignal? && m.conds[e.c] != [] ==>
      var s := m.conds[e.c][0]; Step(m, e).tickets == m.tickets[s := m.tickets[s].(mail := Popped(Me(m)))]
    ensures e.SignalUp? ==>
      var s := PhaseOf(m, Me(m)).sema; Step(m, e).tickets == m.tickets[s := m.tickets[s].(mail := Sent)]
    ensures !e.CondWait? && !e.SignalUp? && !(e.CondSignal? && m.conds[e.c] != []) ==> Step(m, e).tickets == m.tickets
  {
    hide Scheduler.Step, Scheduler.Enabled;
    match e
    case CondWait(c, s) =>
    case CondSignal(c) =>
    case SignalUp =>
    case _ =>
  }

  predicate TakenOff(m: State, e: Event, s: nat) {
    e.CondSignal? && e.c in m.conds && m.conds[e.c] != [] && m.conds[e.c][0] == s
  }

  /** A waiter's mail goes from its list into one thread's hands, and from there into its semaphore. */
  lemma MailMoves(m: State, e: Event, s: nat)
    requires Inv(m) && Enabled(m, e) && s in m.tickets
    ensures s in Step(m, e).tickets
    ensures TakenOff(m, e, s) ==> m.tickets[s].mail.Queued? && Step(m, e).tickets[s].mail == Popped(Me(m))
    ensures Signals(m, e, s) ==> m.tickets[s].mail.Popped? && Step(m, e).tickets[s].mail == Sent
    ensures !TakenOff(m, e, s) && !Signals(m, e, s) ==> Step(m, e).tickets[s] == m.tickets[s]
  {
    hide Inv, Step, Enabled;
    MailFacts(m, e);
    TicketsAfter(m, e);
  }

  lemma MailAfter(m: State, e: Event, s: nat)
    requires Inv(m) && Enabled(m, e) && s in m.tickets
    ensures s in Step(m, e).tickets
    ensures WasSent(Step(m, e), s) == WasSent(m, s) + if Signals(m, e, s) then 1 else 0
  {
    hide Inv, Step, Enabled, TakenOff, Signals;
    MailMoves(m, e, s);
  }

  /** A waiter is signalled at most once: the signals of a run are exactly what turns its mail to sent. */
  lemma {:induction false} SignalledAtMostOnce(m: State, evs: seq<Event>, s: nat)
    requires Inv(m) && Possible(m, evs) && s in m.tickets
    ensures s in Run(m, evs).tickets && WasSent(m, s) + SignalCount(m, evs, s) == WasSent(Run(m, evs), s) <= 1
    decreases |evs|
  {
    if evs != [] {
      MailAfter(m, evs[0], s);
      StepKeeps(m, evs[0]);
      hide Step, Enabled, Inv, Signals;
      SignalledAtMostOnce(Step(m, evs[0]), evs[1..], s);
    }
  }

  // ---------------------------------------------------------------- a condition's list

  predicate Pops(m: State, e: Event, c: nat) {
    e == CondSignal(c) && c in m.conds && m.conds[c] != []
  }

  function PopCount(m: State, evs: seq<Event>, c: nat): nat
    requires Possible(m, evs)
    decreases |evs|
  {
    if evs == [] then 0 else (if Pops(m, evs[0], c) then 1 else 0) + PopCount(Step(m, evs[0]), evs[1..], c)
  }

  lemma ListAfter(m: State, e: Event, c: nat)
    requires Enabled(m, e) && c in m.conds
    ensures c in Step(m, e).conds
    ensures Step(m, e).conds[c] ==
      if e == CondSignal(c) && m.conds[c] != [] then m.conds[c][1..]
      else if e.CondWait? && e.c == c then m.conds[c] + [e.sema]
      else m.conds[c]
  {
    hide Scheduler.Step, Scheduler.Enabled;
    match e
    case CondWait(d, s) =>
    case CondSignal(d) =>
    case _ =>
  }

  lemma Unrolled(m: State, evs: seq<Event>, c: nat)
    requires Possible(m, evs) && evs != []
    ensures Enabled(m, evs[0]) && Possible(Step(m, evs[0]), evs[1..]) && Run(m, evs) == Run(Step(m, evs[0]), evs[1..])
    ensures PopCount(m, evs, c) == (if Pops(m, evs[0], c) then 1 else 0) + PopCount(Step(m, evs[0]), evs[1..], c)
  {
    hide Step, Enabled;
  }

  /** Waiters are signalled in the order they came: the one at index `k` is still listed after `k` others
      have been taken off, and it is the next one taken off. */
  lemma {:induction false} SignalledInOrder(m: State, evs: seq<Event>, c: nat, k: nat)
    requires Possible(m, evs) && c in m.conds && k < |m.conds[c]| && PopCount(m, evs, c) <= k
    ensures c in Run(m, evs).conds
    ensures var n := PopCount(m, evs, c); k - n < |Run(m, evs).conds[c]| && Run(m, evs).conds[c][k - n] == m.conds[c][k]
    decreases |evs|
  {
    if evs != [] {
      Unrolled(m, evs, c);
      ListAfter(m, evs[0], c);
      hide Step, Enabled, Run, Possible, PopCount;
      SignalledInOrder(Step(m, evs[0]), evs[1..], c, if Pops(m, evs[0], c) then k - 1 else k);
    }
  }

  /** Thread `t` holds the condition's lock at every moment of the run and never waits on it. */
  predicate HeldThroughout(m: State, evs: seq<Event>, c: nat, t: nat)
    requires Possible(m, evs)
    decreases |evs|
  {
    c in m.guards && Holds(m, t, m.guards[c]) &&
    (evs != [] ==> !(Me(m) == t && evs[0].CondWait? && evs[0].c == c) && HeldThroughout(Step(m, evs[0]), evs[1..], c, t))
  }

  /** While a thread holds the lock nobody else can touch the list, however often it is preempted: the list
      only loses what was taken off its front. So no more signals are sent than there were waiters: the
      loop of a broadcast, whose every trip takes one waiter off, ends. */
  lemma {:induction false} HeldListOnlyShrinks(m: State, evs: seq<Event>, c: nat, t: nat)
    requires Possible(m, evs) && c in m.conds && HeldThroughout(m, evs, c, t)
    ensures PopCount(m, evs, c) <= |m.conds[c]|
    ensures c in Run(m, evs).conds && Run(m, evs).conds[c] == m.conds[c][PopCount(m, evs, c)..]
    decreases |evs|
  {
    if evs != [] {
      Unrolled(m, evs, c);
      ListAfter(m, evs[0], c);
      HeldStep(m, evs, c, t);
      hide Step, Enabled, Run, Possible, PopCount, HeldThroughout;
      HeldListOnlyShrinks(Step(m, evs[0]), evs[1..], c, t);
    }
  }

  lemma HeldStep(m: State, evs: seq<Event>, c: nat, t: nat)
    requires Possible(m, evs) && evs != [] && HeldThroughout(m, evs, c, t)
    ensures Possible(Step(m, evs[0]), evs[1..]) && HeldThroughout(Step(m, evs[0]), evs[1..], c, t)
    ensures !(evs[0].CondWait? && evs[0].c == c)
  {
    hide Scheduler.Step, Scheduler.Enabled, Step;
  }

  /** The waiter has its signal, or a thread is about to up its semaphore. */
  predicate SignalOnItsWay(m: State, s: nat) {
    s in m.tickets && (m.tickets[s].mail.Sent? || (m.tickets[s].mail.Popped? && PhaseOf(m, m.tickets[s].mail.t) == Signalling(s)))
  }

  /** The test of a broadcast's loop: the list is empty exactly when as many signals were sent as there
      were waiters, and then each of them has its signal or is about to be given it. */
  lemma BroadcastSignalsAll(m: State, evs: seq<Event>, c: nat, t: nat)
    requires Inv(m) && Possible(m, evs) && c in m.conds && HeldThroughout(m, evs, c, t)
    ensures c in Run(m, evs).conds
    ensures PopCount(m, evs, c) <= |m.conds[c]| && (Run(m, evs).conds[c] == [] <==> PopCount(m, evs, c) == |m.conds[c]|)
    ensures Run(m, evs).conds[c] == [] ==> forall s :: s in m.conds[c] ==> SignalOnItsWay(Run(m, evs), s)
  {
    hide *;
    HeldListOnlyShrinks(m, evs, c, t);
    if Run(m, evs).conds[c] == [] {
      forall s | s in m.conds[c] ensures SignalOnItsWay(Run(m, evs), s) {
        OffTheList(m, evs, c, s);
      }
    }
  }

  /** A waiter that is no longer listed has its signal or is about to be given it. */
  lemma OffTheList(m: State, evs: seq<Event>, c: nat, s: nat)
    requires Inv(m) && Possible(m, evs) && c in m.conds && s in m.conds[c]
    requires c in Run(m, evs).conds && s !in Run(m, evs).conds[c]
    ensures SignalOnItsWay(Run(m, evs), s)
  {
    RunKeeps(m, evs);
    assert CondOk(m, c);
    TicketStays(m, evs, s, c);
    var r := Run(m, evs);
    assert TicketOk(r, s);
    hide Possible, Run, PopCount, HeldThroughout, Scheduler.Inv;
  }

  lemma TicketStep(m: State, e: Event, s: nat, c: nat)
    requires Inv(m) && Enabled(m, e) && s in m.tickets && (m.tickets[s].mail.Queued? ==> m.tickets[s].mail.c == c)
    ensures s in Step(m, e).tickets && (Step(m, e).tickets[s].mail.Queued? ==> Step(m, e).tickets[s].mail.c == c)
  {
    hide Inv, Step, Enabled, TakenOff, Signals;
    MailMoves(m, e, s);
  }

  /** A waiter's ticket is never dropped, and its place is on the list it was put on or nowhere. */
  lemma {:induction false} TicketStays(m: State, evs: seq<Event>, s: nat, c: nat)
    requires Inv(m) && Possible(m, evs) && s in m.tickets && (m.tickets[s].mail.Queued? ==> m.tickets[s].mail.c == c)
    ensures s in Run(m, evs).tickets && (Run(m, evs).tickets[s].mail.Queued? ==> Run(m, evs).tickets[s].mail.c == c)
    decreases |evs|
  {
    if evs != [] {
      Unrolled(m, evs, c);
      hide *;
      TicketStep(m, evs[0], s, c);
      StepKeeps(m, evs[0]);
      TicketStays(Step(m, evs[0]), evs[1..], s, c);
    }
  }
}
