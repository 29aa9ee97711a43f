/** Locks and condition variables over semaphores (threads/synch.c:160-341). Acquiring, releasing and
    waiting are not atomic: a thread may lose the processor between any two of the steps below. */
module Monitor {
  import opened Machine
  import opened Scheduler

  datatype Lock = Lock(sema: nat, holder: Option<nat>)

  /** The `semaphore_elem` of one `cond_wait`. */
  datatype Waiter = Waiter(cond: nat, lock: nat, sema: nat)

  /** How far a thread has got. `wait` is the `cond_wait` that the lock operation is part of. */
  datatype Phase =
    | Free
    | Acquiring(l: nat, wait: Option<Waiter>)   // in sema_down on the lock
    | Taken(l: nat, wait: Option<Waiter>)       // down done, not yet the holder
    | Released(l: nat, wait: Option<Waiter>)    // no longer the holder, up still to come
    | Listed(w: Waiter)                         // on the condition's list, lock still held
    | Sleeping(w: Waiter)                       // in sema_down on its own semaphore
    | Signalling(sema: nat)                     // took a waiter off a list, up still to come

  /** Where the signal for a waiter is: its semaphore is on a condition's list, a thread has taken it off
      and is about to up it, or it has been upped. */
  datatype Mail = Queued(c: nat) | Popped(t: nat) | Sent

  datatype Ticket = Ticket(owner: nat, mail: Mail)

  /** `tickets` remembers every waiter's semaphore and `guards` the lock of each condition. */
  datatype State = State(core: Scheduler.State, locks: map<nat, Lock>, conds: map<nat, seq<nat>>, guards: map<nat, nat>,
                         phases: map<nat, Phase>, tickets: map<nat, Ticket>)

  function Me(m: State): nat {
    m.core.current
  }

  function PhaseOf(m: State, t: nat): Phase {
    if t in m.phases then m.phases[t] else Free
  }

  /** A semaphore that belongs to no lock and to no waiter. */
  predicate Plain(m: State, s: nat) {
    s !in m.tickets && forall l :: l in m.locks ==> m.locks[l].sema != s
  }

  function Goes(m: State, p: Phase): State {
    m.(phases := m.phases[Me(m) := p])
  }

  function WithHolder(m: State, l: nat, holder: Option<nat>): State
    requires l in m.locks
  {
    m.(locks := m.locks[l := m.locks[l].(holder := holder)])
  }

  predicate Holds(m: State, t: nat, l: nat) {
    l in m.locks && m.locks[l].holder == Some(t)
  }

  datatype Event =
    | LockInit(l: nat, sema: nat) | CondInit(c: nat, l: nat)
    | Acquire(l: nat) | TryAcquire(l: nat) | LockDown | SetHolder
    | Release(l: nat) | UnlockUp
    | CondWait(c: nat, sema: nat) | WaitRelease | SleepDown
    | CondSignal(c: nat) | SignalUp
    | Kernel(e: Scheduler.Event)

  /** A thread between two steps of an operation does nothing else, but it may be preempted, and
      interrupt handlers may up plain semaphores and unblock plainly blocked threads. */
  predicate KernelMay(m: State, e: Scheduler.Event) {
    Scheduler.Enabled(m.core, e) &&
    match e
    case DoDown(s) => PhaseOf(m, Me(m)).Free? && Plain(m, s)
    case DoTryDown(s) => PhaseOf(m, Me(m)).Free? && Plain(m, s)
    case DoUp(s) => Plain(m, s)
    case DoYield => true
    case DoUnblock(t) => true
    case _ => PhaseOf(m, Me(m)).Free?
  }

  predicate AtRest(m: State) {
    Me(m) in m.core.threads && m.core.threads[Me(m)].want == None && PhaseOf(m, Me(m)).Free?
  }

  predicate Enabled(m: State, e: Event) {
    var p := PhaseOf(m, Me(m));
    match e
    case LockInit(l, s) => AtRest(m) && l !in m.locks && s !in m.core.semas
    case CondInit(c, l) => AtRest(m) && c !in m.conds && l in m.locks
    case Acquire(l) => AtRest(m) && l in m.locks && !Holds(m, Me(m), l) && Me(m) != m.core.idle
    case TryAcquire(l) => AtRest(m) && l in m.locks && Scheduler.Enabled(m.core, DoTryDown(m.locks[l].sema)) && !Holds(m, Me(m), l)
    case LockDown => p.Acquiring? && p.l in m.locks && Scheduler.Enabled(m.core, DoDown(m.locks[p.l].sema))
    case SetHolder => p.Taken? && p.l in m.locks
    case Release(l) => AtRest(m) && Holds(m, Me(m), l)
    case UnlockUp => p.Released? && p.l in m.locks && Scheduler.Enabled(m.core, DoUp(m.locks[p.l].sema))
    case CondWait(c, s) => AtRest(m) && c in m.conds && c in m.guards && Holds(m, Me(m), m.guards[c]) && s !in m.core.semas
      && Me(m) != m.core.idle
    case WaitRelease => p.Listed? && p.w.lock in m.locks
    case SleepDown => p.Sleeping? && Scheduler.Enabled(m.core, DoDown(p.w.sema))
    case CondSignal(c) => AtRest(m) && c in m.conds && c in m.guards && Holds(m, Me(m), m.guards[c])
      && (m.conds[c] != [] ==> m.conds[c][0] in m.tickets)
    case SignalUp => p.Signalling? && p.sema in m.tickets && Scheduler.Enabled(m.core, DoUp(p.sema))
    case Kernel(k) => KernelMay(m, k)
  }

  function Step(m: State, e: Event): State
    requires Enabled(m, e)
  {
    var p := PhaseOf(m, Me(m));
    match e
    case LockInit(l, s) => m.(core := Scheduler.Step(m.core, DoSemaInit(s, 1)), locks := m.locks[l := Lock(s, None)])
    case CondInit(c, l) => m.(conds := m.conds[c := []], guards := m.guards[c := l])
    case Acquire(l) => Goes(m, Acquiring(l, None))
    case TryAcquire(l) =>
      if m.core.semas[m.locks[l].sema].value == 0 then m
      else Goes(m, Taken(l, None)).(core := Scheduler.Step(m.core, DoTryDown(m.locks[l].sema)))
    case LockDown =>
      var s := m.locks[p.l].sema;
      (if m.core.semas[s].value == 0 then m else Goes(m, Taken(p.l, p.wait))).(core := Scheduler.Step(m.core, DoDown(s)))
    case SetHolder => Goes(WithHolder(m, p.l, Some(Me(m))), Free)
    case Release(l) => Goes(WithHolder(m, l, None), Released(l, None))
    case UnlockUp =>
      Goes(m, if p.wait.Some? then Sleeping(p.wait.value) else Free).(core := Scheduler.Step(m.core, DoUp(m.locks[p.l].sema)))
    case CondWait(c, s) =>
      Goes(m, Listed(Waiter(c, m.guards[c], s))).(
        core := Scheduler.Step(m.core, DoSemaInit(s, 0)), conds := m.conds[c := m.conds[c] + [s]],
        tickets := m.tickets[s := Ticket(Me(m), Queued(c))])
    case WaitRelease => Goes(WithHolder(m, p.w.lock, None), Released(p.w.lock, Some(p.w)))
    case SleepDown =>
      (if m.core.semas[p.w.sema].value == 0 then m else Goes(m, Acquiring(p.w.lock, Some(p.w)))).(core := Scheduler.Step(m.core, DoDown(p.w.sema)))
    case CondSignal(c) =>
      if m.conds[c] == [] then m
      else
        var s := m.conds[c][0];
        Goes(m, Signalling(s)).(
          conds := m.conds[c := m.conds[c][1..]], tickets := m.tickets[s := m.tickets[s].(mail := Popped(Me(m)))])
    case SignalUp =>
      Goes(m, Free).(core := Scheduler.Step(m.core, DoUp(p.sema)), tickets := m.tickets[p.sema := m.tickets[p.sema].(mail := Sent)])
    case Kernel(k) => m.(core := Scheduler.Step(m.core, k))
  }

  // ---------------------------------------------------------------- what every step keeps

  /** Between its down and its up on the lock. */
  predicate IsInside(m: State, t: nat, l: nat) {
    Holds(m, t, l) || (PhaseOf(m, t).Taken? && PhaseOf(m, t).l == l) || (PhaseOf(m, t).Released? && PhaseOf(m, t).l == l)
  }

  function Inside(m: State, l: nat): set<nat> {
    set t | t in m.core.threads && IsInside(m, t, l)
  }

  /** A lock's unit is either in its semaphore or with one thread. */
  predicate LockOk(m: State, l: nat)
    requires l in m.locks
  {
    var lock := m.locks[l];
    && lock.sema in m.core.semas && lock.sema !in m.tickets
    && m.core.semas[lock.sema].value + |Inside(m, l)| == 1
    && (lock.holder.Some? ==> lock.holder.value in m.core.threads)
  }

  /** In a `cond_wait` that has not yet got past its own semaphore. */
  predicate BeforeWake(m: State, t: nat, s: nat) {
    var p := PhaseOf(m, t);
    || (p.Listed? && p.w.sema == s) || (p.Released? && p.wait.Some? && p.wait.value.sema == s)
    || (p.Sleeping? && p.w.sema == s)
  }

  predicate Owns(m: State, t: nat, w: Waiter) {
    w.sema in m.tickets && m.tickets[w.sema].owner == t && w.lock in m.locks
  }

  /** The semaphore a thread is waiting in belongs to the operation it is in. */
  predicate WantOk(m: State, t: nat, s: nat) {
    var p := PhaseOf(m, t);
    match p
    case Acquiring(l, wait) => l in m.locks && m.locks[l].sema == s
    case Sleeping(w) => w.sema == s
    case Free => Plain(m, s)
    case _ => false
  }

  predicate PhaseOk(m: State, t: nat) {
    var p := PhaseOf(m, t);
    match p
    case Free => true
    case Acquiring(l, wait) => l in m.locks && (wait.Some? ==> l == wait.value.lock && Owns(m, t, wait.value) && m.tickets[wait.value.sema].mail.Sent?)
    case Taken(l, wait) => l in m.locks && m.locks[l].holder == None
      && (wait.Some? ==> l == wait.value.lock && Owns(m, t, wait.value) && m.tickets[wait.value.sema].mail.Sent?)
    case Released(l, wait) => l in m.locks && m.locks[l].holder == None && (wait.Some? ==> l == wait.value.lock && Owns(m, t, wait.value))
    case Listed(w) => Owns(m, t, w) && Holds(m, t, w.lock)
    case Sleeping(w) => Owns(m, t, w)
    case Signalling(s) => s in m.tickets && m.tickets[s].mail == Popped(t)
  }

  predicate ThreadOk(m: State, t: nat)
    requires t in m.core.threads
  {
    var th := m.core.threads[t];
    && PhaseOk(m, t)
    && (th.want.Some? ==> WantOk(m, t, th.want.value))
    && (th.want == None && (th.status == Blocked || th.status == Dying) ==> PhaseOf(m, t).Free?)
  }

  /** A waiter's semaphore holds a unit exactly from its signal until its owner takes it. */
  predicate TicketOk(m: State, s: nat)
    requires s in m.tickets
  {
    var k := m.tickets[s];
    && s in m.core.semas && k.owner in m.core.threads
    && m.core.semas[s].value == (if k.mail.Sent? && BeforeWake(m, k.owner, s) then 1 else 0)
    && (!BeforeWake(m, k.owner, s) ==> k.mail.Sent?)
    && (k.mail.Queued? ==> k.mail.c in m.conds && s in m.conds[k.mail.c])
    && (k.mail.Popped? ==> k.mail.t in m.core.threads && PhaseOf(m, k.mail.t) == Signalling(s))
  }

  /** A condition's list holds the unsignalled waiters, each once. */
  predicate CondOk(m: State, c: nat)
    requires c in m.conds
  {
    && NoDuplicates(m.conds[c]) && c in m.guards && m.guards[c] in m.locks
    && (forall s :: s in m.conds[c] ==> s in m.tickets && m.tickets[s].mail == Queued(c))
  }

  predicate SemasApart(m: State) {
    forall l1, l2 :: l1 in m.locks && l2 in m.locks && m.locks[l1].sema == m.locks[l2].sema ==> l1 == l2
  }

  predicate LocksOk(m: State) {
    SemasApart(m) && forall l :: l in m.locks ==> LockOk(m, l)
  }

  predicate ThreadsOk(m: State) {
    (forall t :: t in m.phases ==> t in m.core.threads) && forall t :: t in m.core.threads ==> ThreadOk(m, t)
  }

  predicate TicketsOk(m: State) {
    forall s :: s in m.tickets ==> TicketOk(m, s)
  }

  predicate CondsOk(m: State) {
    forall c :: c in m.conds ==> CondOk(m, c)
  }

  predicate Inv(m: State) {
    Scheduler.Inv(m.core) && LocksOk(m) && ThreadsOk(m) && TicketsOk(m) && CondsOk(m)
  }

  // ---------------------------------------------------------------- runs

  predicate Possible(m: State, evs: seq<Event>)
    decreases |evs|
  {
    evs == [] || (Enabled(m, evs[0]) && Possible(Step(m, evs[0]), evs[1..]))
  }

  function Run(m: State, evs: seq<Event>): State
    requires Possible(m, evs)
    decreases |evs|
  {
    if evs == [] then m else Run(Step(m, evs[0]), evs[1..])
  }
}
