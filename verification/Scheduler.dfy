/** Threads, the ready list and semaphores as a state machine whose steps are the regions the kernel
    runs with interrupts off (threads/thread.c:243-345, 523-598, threads/synch.c:61-121). The same
    core carries both ready lists: first in, first out (Project 3) and by priority (Project 1). */
module Scheduler {
  import opened Machine
  import opened OrderedList

  datatype Policy = Fifo | Priority

  datatype Status = Running | Ready | Blocked | Dying

  /** `want` is the semaphore whose `sema_down` loop the thread is in. */
  datatype Thread = Thread(status: Status, priority: int, want: Option<nat>)

  datatype Semaphore = Semaphore(value: nat, waiters: seq<nat>)

  datatype State = State(policy: Policy, threads: map<nat, Thread>, ready: seq<nat>, current: nat, idle: nat,
                         semas: map<nat, Semaphore>)

  // ---------------------------------------------------------------- the ready list

  function PriorityOf(st: State, t: nat): int {
    if t in st.threads then st.threads[t].priority else 0
  }

  /** What orders the ready list: the greater priority comes first. */
  function Keys(st: State, list: seq<nat>): (keys: seq<int>)
    ensures |keys| == |list|
  {
    seq(|list|, i requires 0 <= i < |list| => -PriorityOf(st, list[i]))
  }

  /** `list_push_back`, or `list_insert_ordered` with `prio_detect`. */
  function Enqueue(st: State, t: nat): seq<nat> {
    if st.policy.Fifo? then st.ready + [t]
    else Inserted(st.ready, Place(Keys(st, st.ready), -PriorityOf(st, t)), t)
  }

  // ---------------------------------------------------------------- scheduling

  function WithStatus(st: State, t: nat, status: Status): State {
    if t in st.threads then st.(threads := st.threads[t := st.threads[t].(status := status)]) else st
  }

  /** `next_thread_to_run`. */
  function Next(st: State): nat {
    if st.ready == [] then st.idle else st.ready[0]
  }

  /** `schedule`, the running thread having left the running state. */
  function Schedule(st: State): State {
    var next := Next(st);
    WithStatus(st.(ready := if st.ready == [] then [] else st.ready[1..], current := next), next, Running)
  }

  /** `thread_block`. */
  function Block(st: State): State {
    Schedule(WithStatus(st, st.current, Blocked))
  }

  /** `thread_unblock`. */
  function Unblock(st: State, t: nat): State {
    WithStatus(st.(ready := Enqueue(st, t)), t, Ready)
  }

  /** `thread_yield`. */
  function Yield(st: State): State {
    Schedule(WithStatus(if st.current != st.idle then st.(ready := Enqueue(st, st.current)) else st, st.current, Ready))
  }

  /** The end of `thread_exit`. */
  function Exit(st: State): State {
    Schedule(WithStatus(st, st.current, Dying))
  }

  /** The first half of `thread_create`: a thread that nothing can run yet. */
  function Spawn(st: State, t: nat, priority: int): State {
    st.(threads := st.threads[t := Thread(Blocked, priority, None)])
  }

  /** `thread_set_priority`. */
  function SetPriority(st: State, priority: int): State {
    if st.current in st.threads then
      st.(threads := st.threads[st.current := st.threads[st.current].(priority := priority)])
    else st
  }

  // ---------------------------------------------------------------- semaphores

  function SemaInit(st: State, s: nat, value: nat): State {
    st.(semas := st.semas[s := Semaphore(value, [])])
  }

  function WithWant(st: State, t: nat, want: Option<nat>): State {
    if t in st.threads then st.(threads := st.threads[t := st.threads[t].(want := want)]) else st
  }

  function WithSema(st: State, s: nat, sema: Semaphore): State {
    st.(semas := st.semas[s := sema])
  }

  /** A `sema_down` that finds a positive value. */
  function Take(st: State, s: nat): State
    requires s in st.semas && st.semas[s].value > 0
  {
    WithWant(WithSema(st, s, st.semas[s].(value := st.semas[s].value - 1)), st.current, None)
  }

  /** A trip through the loop of `sema_down` that finds the value zero. */
  function Wait(st: State, s: nat): State
    requires s in st.semas
  {
    Block(WithWant(WithSema(st, s, st.semas[s].(waiters := st.semas[s].waiters + [st.current])), st.current, Some(s)))
  }

  /** From the top of the `sema_down` loop up to its next test, or to its end. */
  function Down(st: State, s: nat): State
    requires s in st.semas
  {
    if st.semas[s].value == 0 then Wait(st, s) else Take(st, s)
  }

  /** `sema_try_down`. */
  function TryDown(st: State, s: nat): State
    requires s in st.semas
  {
    if st.semas[s].value == 0 then st else WithSema(st, s, st.semas[s].(value := st.semas[s].value - 1))
  }

  /** `sema_up`. */
  function Up(st: State, s: nat): State
    requires s in st.semas
  {
    var sema := st.semas[s];
    if sema.waiters == [] then WithSema(st, s, sema.(value := sema.value + 1))
    else
      var woken := Unblock(WithSema(st, s, sema.(waiters := sema.waiters[1..])), sema.waiters[0]);
      WithSema(woken, s, Semaphore(sema.value + 1, sema.waiters[1..]))
  }

  // ---------------------------------------------------------------- steps

  datatype Event =
    | DoDown(s: nat) | DoTryDown(s: nat) | DoUp(s: nat) | DoSemaInit(s: nat, value: nat)
    | DoYield | DoBlock | DoUnblock(t: nat) | DoSpawn(t: nat, priority: int) | DoExit | DoSetPriority(priority: int)

  /** What can happen next. A thread inside `sema_down` runs nothing but that loop; any other region
      may be the running thread's or, for a semaphore's `up` and for unblocking, an interrupt
      handler's. The idle thread never waits in a semaphore and never exits. */
  predicate Enabled(st: State, e: Event)
  {
    st.current in st.threads &&
    var want := st.threads[st.current].want;
    match e
    case DoDown(s) => s in st.semas && st.current != st.idle && (want == None || want == Some(s))
    case DoTryDown(s) => s in st.semas && want == None
    case DoUp(s) => s in st.semas
    case DoSemaInit(s, v) => s !in st.semas
    case DoYield => want == None
    case DoBlock => want == None
    case DoUnblock(t) => t in st.threads && st.threads[t] == Thread(Blocked, st.threads[t].priority, None) && t != st.idle
    case DoSpawn(t, p) => t !in st.threads
    case DoExit => want == None && st.current != st.idle
    case DoSetPriority(p) => want == None
  }

  function Step(st: State, e: Event): State
    requires Enabled(st, e)
  {
    match e
    case DoDown(s) => Down(st, s)
    case DoTryDown(s) => TryDown(st, s)
    case DoUp(s) => Up(st, s)
    case DoSemaInit(s, v) => SemaInit(st, s, v)
    case DoYield => Yield(st)
    case DoBlock => Block(st)
    case DoUnblock(t) => Unblock(st, t)
    case DoSpawn(t, p) => Spawn(st, t, p)
    case DoExit => Exit(st)
    case DoSetPriority(p) => SetPriority(st, p)
  }

  // ---------------------------------------------------------------- what every step keeps

  predicate NoDuplicates(list: seq<nat>) {
    forall i, j :: 0 <= i < j < |list| ==> list[i] != list[j]
  }

  /** The ready list holds each ready thread once, and the idle thread never. */
  predicate ReadyOk(st: State) {
    && NoDuplicates(st.ready)
    && (forall t :: t in st.ready ==> t in st.threads)
    && (forall t :: t in st.threads ==> ((t in st.ready) == (st.threads[t].status == Ready && t != st.idle)))
    && (st.policy.Priority? ==> Sorted(Keys(st, st.ready)))
  }

  /** Exactly one thread runs. The idle thread is never inside a semaphore. */
  predicate OneRuns(st: State) {
    && st.current in st.threads && st.idle in st.threads
    && (forall t :: t in st.threads ==> ((st.threads[t].status == Running) == (t == st.current)))
    && st.threads[st.idle].want == None && st.threads[st.idle].status != Dying
  }

  predicate Awaits(st: State, t: nat, s: nat) {
    t in st.threads && st.threads[t].status == Blocked && st.threads[t].want == Some(s)
  }

  /** A waiters list holds each thread blocked in that semaphore once and no other: no thread is in two
      lists, and none is blocked in a semaphore that could not wake it. */
  predicate WaitersOk(st: State, s: nat)
    requires s in st.semas
  {
    && NoDuplicates(st.semas[s].waiters)
    && (forall t :: t in st.semas[s].waiters ==> Awaits(st, t, s))
    && (forall t :: t in st.threads && Awaits(st, t, s) ==> t in st.semas[s].waiters)
  }

  /** Threads that were woken from this semaphore and have not tested its value again. */
  function Woken(st: State, s: nat): set<nat> {
    set t | t in st.threads && st.threads[t].want == Some(s) && st.threads[t].status != Blocked
  }

  /** A semaphore with waiters has no more units than threads already woken to take them. */
  predicate NoneLost(st: State, s: nat)
    requires s in st.semas
  {
    st.semas[s].waiters != [] ==> st.semas[s].value <= |Woken(st, s)|
  }

  predicate SemasOk(st: State) {
    && (forall s :: s in st.semas ==> WaitersOk(st, s) && NoneLost(st, s))
    && (forall t :: t in st.threads && st.threads[t].want.Some? ==>
          st.threads[t].want.value in st.semas && st.threads[t].status != Dying)
  }

  predicate Inv(st: State) {
    OneRuns(st) && ReadyOk(st) && SemasOk(st)
  }

  // ---------------------------------------------------------------- runs

  /** The events of a run are each possible when they happen. */
  predicate Possible(st: State, evs: seq<Event>)
    decreases |evs|
  {
    evs == [] || (Enabled(st, evs[0]) && Possible(Step(st, evs[0]), evs[1..]))
  }

  function Run(st: State, evs: seq<Event>): State
    requires Possible(st, evs)
    decreases |evs|
  {
    if evs == [] then st else Run(Step(st, evs[0]), evs[1..])
  }
}
