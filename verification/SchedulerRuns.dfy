/** Whole runs of the scheduler: who is dispatched and woken when, and where a semaphore's units go. */
module SchedulerRuns {
  import opened Machine
  import opened OrderedList
  import opened Scheduler
  import opened SchedulerProofs

  // ---------------------------------------------------------------- a semaphore's list

  /** `thread_unblock` asserts that its thread is blocked; `sema_up` never breaks that, and finds a
      thread that no other list holds and that is not already ready. */
  lemma UpFindsBlocked(st: State, evs: seq<Event>, s: nat)
    requires Inv(st) && Possible(st, evs)
    ensures var r := Run(st, evs); s in r.semas && r.semas[s].waiters != [] ==>
      var w := r.semas[s].waiters[0];
      && w in r.threads && r.threads[w].status == Blocked && w !in r.ready && w != r.idle
      && (forall s2 :: s2 in r.semas && w in r.semas[s2].waiters ==> s2 == s)
  {
    RunKeeps(st, evs);
    var r := Run(st, evs);
    if s in r.semas && r.semas[s].waiters != [] {
      var w := r.semas[s].waiters[0];
      assert w in r.semas[s].waiters && WaitersOk(r, s);
      forall s2 | s2 in r.semas && w in r.semas[s2].waiters ensures s2 == s {
        assert WaitersOk(r, s2);
      }
    }
  }

  /** When every woken thread has tested the value again, a semaphore with waiters has no units: nobody
      sleeps beside a unit it could take. */
  lemma NobodySleepsBesideAUnit(st: State, evs: seq<Event>, s: nat)
    requires Inv(st) && Possible(st, evs)
    ensures var r := Run(st, evs); s in r.semas && Woken(r, s) == {} && r.semas[s].waiters != [] ==> r.semas[s].value == 0
    ensures var r := Run(st, evs); s in r.semas && r.semas[s].waiters != [] ==> r.semas[s].value <= |Woken(r, s)|
  {
    RunKeeps(st, evs);
  }

  predicate Downs(st: State, e: Event, s: nat) {
    (e == DoDown(s) || e == DoTryDown(s)) && s in st.semas && st.semas[s].value > 0
  }

  /** Successful `down`s in a run. */
  function DownCount(st: State, evs: seq<Event>, s: nat): nat
    requires Possible(st, evs)
    decreases |evs|
  {
    if evs == [] then 0
    else (if Downs(st, evs[0], s) then 1 else 0) + DownCount(Step(st, evs[0]), evs[1..], s)
  }

  function UpCount(evs: seq<Event>, s: nat): nat {
    if evs == [] then 0 else (if evs[0] == DoUp(s) then 1 else 0) + UpCount(evs[1..], s)
  }

  lemma StepUnits(st: State, e: Event, s: nat)
    requires Enabled(st, e) && s in st.semas
    ensures s in Step(st, e).semas
    ensures Step(st, e).semas[s].value == st.semas[s].value + (if e == DoUp(s) then 1 else 0) - (if Downs(st, e, s) then 1 else 0)
  {
  }

  /** Units are conserved: what was there, plus the ups, minus the downs that succeeded. */
  lemma {:induction false} UnitsConserved(st: State, evs: seq<Event>, s: nat)
    requires Possible(st, evs) && s in st.semas
    ensures s in Run(st, evs).semas
    ensures Run(st, evs).semas[s].value == st.semas[s].value + UpCount(evs, s) - DownCount(st, evs, s)
    decreases |evs|
  {
    if evs != [] {
      StepUnits(st, evs[0], s);
      hide Step, Enabled;
      UnitsConserved(Step(st, evs[0]), evs[1..], s);
    }
  }

  lemma ListAfter(st: State, e: Event, s: nat)
    requires Enabled(st, e) && s in st.semas
    ensures s in Step(st, e).semas
    ensures var before := st.semas[s].waiters; var after := Step(st, e).semas[s].waiters;
      if e == DoUp(s) then after == (if before == [] then [] else before[1..]) else before <= after
  {
  }

  /** An `up` makes the first waiter ready. */
  lemma UpReadies(st: State, s: nat)
    requires Inv(st) && s in st.semas && st.semas[s].waiters != []
    ensures var w := st.semas[s].waiters[0]; var r := Up(st, s);
      w in r.threads && r.threads[w].status == Ready && w in r.ready
  {
    var w := st.semas[s].waiters[0];
    assert WaitersOk(st, s) && w in st.semas[s].waiters && Awaits(st, w, s);
    UpKeeps(st, s);
    assert w in st.threads && w != st.idle;
    hide Enqueue;
  }

  lemma Unrolled(st: State, evs: seq<Event>)
    requires Possible(st, evs) && evs != []
    ensures Enabled(st, evs[0]) && Possible(Step(st, evs[0]), evs[1..])
    ensures Run(st, evs) == Run(Step(st, evs[0]), evs[1..])
  {
  }

  /** A waiter stays listed, one place further on with each up. */
  lemma {:induction false} WaitersMoveUp(st: State, evs: seq<Event>, s: nat, k: nat)
    requires Possible(st, evs) && s in st.semas && k < |st.semas[s].waiters| && UpCount(evs, s) <= k
    ensures s in Run(st, evs).semas
    ensures var after := Run(st, evs).semas[s].waiters;
      k - UpCount(evs, s) < |after| && after[k - UpCount(evs, s)] == st.semas[s].waiters[k]
    decreases |evs|
  {
    if evs != [] {
      Unrolled(st, evs);
      ListAfter(st, evs[0], s);
      hide Step, Enabled, Run, Possible;
      WaitersMoveUp(Step(st, evs[0]), evs[1..], s, if evs[0] == DoUp(s) then k - 1 else k);
    }
  }

  /** A semaphore wakes its waiters in the order they came: the one at index `k` sleeps through `k` ups
      and is made ready by the next. */
  lemma WaitersWakeInOrder(st: State, evs: seq<Event>, s: nat, k: nat)
    requires Inv(st) && Possible(st, evs) && s in st.semas && k < |st.semas[s].waiters| && UpCount(evs, s) == k
    ensures var r := Run(st, evs); var w := st.semas[s].waiters[k];
      && Awaits(r, w, s)
      && Enabled(r, DoUp(s)) && w in Step(r, DoUp(s)).threads
      && Step(r, DoUp(s)).threads[w].status == Ready && w in Step(r, DoUp(s)).ready
  {
    WaitersMoveUp(st, evs, s, k);
    RunKeeps(st, evs);
    var r := Run(st, evs);
    assert WaitersOk(r, s) && r.semas[s].waiters[0] in r.semas[s].waiters;
    UpReadies(r, s);
    hide Up, Run, Possible, UpCount;
    StepKeeps(r, DoUp(s));
  }

  // ---------------------------------------------------------------- the ready list

  /** Whether an event calls `schedule`. */
  predicate Switches(st: State, e: Event) {
    e == DoYield || e == DoBlock || e == DoExit || (e.DoDown? && e.s in st.semas && st.semas[e.s].value == 0)
  }

  /** The thread an event puts on the ready list. */
  function Joins(st: State, e: Event): Option<nat> {
    match e
    case DoYield => if st.current != st.idle then Some(st.current) else None
    case DoUnblock(t) => Some(t)
    case DoUp(s) => if s in st.semas && st.semas[s].waiters != [] then Some(st.semas[s].waiters[0]) else None
    case _ => None
  }

  /** The ready list an event leaves for `schedule` to choose from. */
  function Queue(st: State, e: Event): seq<nat> {
    if Joins(st, e).Some? then Enqueue(st, Joins(st, e).value) else st.ready
  }

  /** What any event does to the ready list and to the running thread. */
  lemma QueueLaw(st: State, e: Event)
    requires Enabled(st, e)
    ensures Step(st, e).policy == st.policy
    ensures Step(st, e).ready == if Switches(st, e) && Queue(st, e) != [] then Queue(st, e)[1..] else Queue(st, e)
    ensures Step(st, e).current ==
      if !Switches(st, e) then st.current else if Queue(st, e) == [] then st.idle else Queue(st, e)[0]
  {
    if e.DoUp? && st.semas[e.s].waiters != [] {
      var popped := WithSema(st, e.s, st.semas[e.s].(waiters := st.semas[e.s].waiters[1..]));
      SameKeys(st, popped, st.ready);
    }
    hide Keys;
  }

  function Calls(st: State, evs: seq<Event>): nat
    requires Possible(st, evs)
    decreases |evs|
  {
    if evs == [] then 0 else (if Switches(st, evs[0]) then 1 else 0) + Calls(Step(st, evs[0]), evs[1..])
  }

  /** What one event does to the place of the ready thread at index `k`. */
  lemma ReadyPlace(st: State, e: Event, k: nat)
    requires st.policy.Fifo? && Enabled(st, e) && k < |st.ready| && (Switches(st, e) ==> k > 0)
    ensures var at := if Switches(st, e) then k - 1 else k;
      at < |Step(st, e).ready| && Step(st, e).ready[at] == st.ready[k] && Step(st, e).policy.Fifo?
  {
    hide Step, Enabled, Switches, Joins;
    QueueLaw(st, e);
  }

  lemma CallsUnrolled(st: State, evs: seq<Event>)
    requires Possible(st, evs) && evs != []
    ensures Enabled(st, evs[0]) && Possible(Step(st, evs[0]), evs[1..])
    ensures Run(st, evs) == Run(Step(st, evs[0]), evs[1..])
    ensures Calls(st, evs) == (if Switches(st, evs[0]) then 1 else 0) + Calls(Step(st, evs[0]), evs[1..])
  {
    hide Step, Enabled, Switches;
  }

  /** A ready thread moves up one place with each call of `schedule`, and only then. */
  lemma {:induction false} ReadyMovesUp(st: State, evs: seq<Event>, k: nat)
    requires st.policy.Fifo? && Possible(st, evs) && k < |st.ready| && Calls(st, evs) <= k
    ensures k - Calls(st, evs) < |Run(st, evs).ready| && Run(st, evs).ready[k - Calls(st, evs)] == st.ready[k]
    ensures Run(st, evs).policy.Fifo?
    decreases |evs|
  {
    hide *;
    if evs == [] {
      NoCalls(st, 0);
    } else {
      CallsUnrolled(st, evs);
      ReadyPlace(st, evs[0], k);
      ReadyMovesUp(Step(st, evs[0]), evs[1..], if Switches(st, evs[0]) then k - 1 else k);
    }
  }

  /** First in, first out: the thread at index `k` is ready through `k` calls of `schedule`, whatever else
      happens, and runs at the next. */
  lemma BoundedDispatch(st: State, evs: seq<Event>, e: Event, k: nat)
    requires Inv(st) && st.policy.Fifo? && Possible(st, evs) && k < |st.ready| && Calls(st, evs) == k
    requires Enabled(Run(st, evs), e)
    ensures var r := Run(st, evs); var t := st.ready[k];
      && t in r.threads && r.threads[t].status == Ready
      && (Switches(r, e) ==> Step(r, e).current == t && Step(r, e).threads[t].status == Running)
  {
    ReadyMovesUp(st, evs, k);
    RunKeeps(st, evs);
    var r := Run(st, evs);
    assert r.ready[0] in r.ready;
    QueueLaw(r, e);
    StepKeeps(r, e);
  }

  // ---------------------------------------------------------------- by priority

  /** The ready threads of one priority, in order. */
  function Class(st: State, p: int): seq<nat> {
    Equals(st.ready, Keys(st, st.ready), -p)
  }

  /** `schedule` picks a thread that no ready thread outranks. */
  lemma PicksHighest(st: State, e: Event, t: nat)
    requires Inv(st) && st.policy.Priority? && Enabled(st, e) && Switches(st, e) && t in Queue(st, e)
    ensures PriorityOf(st, t) <= PriorityOf(st, Step(st, e).current)
  {
    QueueLaw(st, e);
    if Joins(st, e).Some? {
      Enqueued(st, st.current);
    }
    var q := Queue(st, e);
    assert Sorted(Keys(st, q));
    var i :| 0 <= i < |q| && q[i] == t;
    assert Keys(st, q)[0] <= Keys(st, q)[i];
  }

  /** A thread of priority `p` enters the ready list. */
  predicate JoinsClass(st: State, e: Event, p: int) {
    Joins(st, e).Some? && PriorityOf(st, Joins(st, e).value) == p
  }

  /** `schedule` takes a thread of priority `p` off the ready list. */
  predicate LeavesClass(st: State, e: Event, p: int) {
    Switches(st, e) && Queue(st, e) != [] && PriorityOf(st, Queue(st, e)[0]) == p
  }

  /** Among equals the ready list is first in, first out, whatever happens to other priorities and
      whatever priority the running thread gives itself. */
  lemma ClassLaw(st: State, e: Event, p: int)
    requires Inv(st) && st.policy.Priority? && Enabled(st, e)
    ensures var q := Class(st, p) + if JoinsClass(st, e, p) then [Joins(st, e).value] else [];
      if LeavesClass(st, e, p) then q != [] && Step(st, e).current == q[0] && Class(Step(st, e), p) == q[1..]
      else Class(Step(st, e), p) == q
  {
    QueueLaw(st, e);
    ClassOfQueue(st, e, p);
    ListedKeepPriority(st, e);
    hide Step, Enabled, Inv, Joins, Enqueue, Keys, Switches;
    ClassAfter(st, e, p);
  }

  lemma ClassOfEnqueued(st: State, t: nat, p: int)
    requires ReadyOk(st) && st.policy.Priority?
    ensures Equals(Enqueue(st, t), Keys(st, Enqueue(st, t)), -p) == Class(st, p) + if PriorityOf(st, t) == p then [t] else []
  {
    var at := EnqueuePlace(st, t);
    KeysOfInserted(st, st.ready, at, t);
    assert Class(st, p) == Equals(st.ready, Keys(st, st.ready), -p);
    hide *;
    InsertIsFifo(st.ready, Keys(st, st.ready), t, -PriorityOf(st, t), -p);
  }

  lemma ClassOfQueue(st: State, e: Event, p: int)
    requires ReadyOk(st) && st.policy.Priority?
    ensures Equals(Queue(st, e), Keys(st, Queue(st, e)), -p)
      == Class(st, p) + if JoinsClass(st, e, p) then [Joins(st, e).value] else []
  {
    hide Enqueue, Keys, Equals, ReadyOk, Joins, PriorityOf;
    if Joins(st, e).Some? {
      ClassOfEnqueued(st, Joins(st, e).value, p);
    }
  }

  /** No event changes the priority of a thread that is, or will be, on the ready list. */
  lemma ListedKeepPriority(st: State, e: Event)
    requires Inv(st) && Enabled(st, e)
    ensures forall t :: t in Step(st, e).ready ==> PriorityOf(Step(st, e), t) == PriorityOf(st, t)
  {
    if !e.DoSetPriority? && !e.DoSpawn? {
      hide Inv;
      forall t ensures PriorityOf(Step(st, e), t) == PriorityOf(st, t) {
        PriorityKept(st, e, t);
      }
    }
    hide Switches, Keys, Enqueue, SemasOk;
  }

  lemma PriorityKept(st: State, e: Event, t: nat)
    requires Enabled(st, e) && !e.DoSetPriority? && !e.DoSpawn?
    ensures PriorityOf(Step(st, e), t) == PriorityOf(st, t)
  {
    hide Enqueue;
  }

  lemma ClassAfter(st: State, e: Event, p: int)
    requires Enabled(st, e)
    requires Step(st, e).ready == if Switches(st, e) && Queue(st, e) != [] then Queue(st, e)[1..] else Queue(st, e)
    requires forall t :: t in Step(st, e).ready ==> PriorityOf(Step(st, e), t) == PriorityOf(st, t)
    ensures var q := Equals(Queue(st, e), Keys(st, Queue(st, e)), -p);
      if LeavesClass(st, e, p) then q != [] && q[0] == Queue(st, e)[0] && Class(Step(st, e), p) == q[1..]
      else Class(Step(st, e), p) == q
  {
    hide Step, Enabled;
    var q := Queue(st, e);
    SameKeys(st, Step(st, e), Step(st, e).ready);
    if Switches(st, e) && q != [] {
      assert Keys(st, q)[1..] == Keys(st, q[1..]);
    }
  }

  /** How often a run dispatches a thread of priority `p` from the ready list. */
  function ClassCalls(st: State, evs: seq<Event>, p: int): nat
    requires Possible(st, evs)
    decreases |evs|
  {
    if evs == [] then 0 else (if LeavesClass(st, evs[0], p) then 1 else 0) + ClassCalls(Step(st, evs[0]), evs[1..], p)
  }

  /** What one event does to the place of the thread at index `k` of its class. */
  lemma ClassPlace(st: State, e: Event, p: int, k: nat)
    requires Inv(st) && st.policy.Priority? && Enabled(st, e) && k < |Class(st, p)| && (LeavesClass(st, e, p) ==> k > 0)
    ensures var at := if LeavesClass(st, e, p) then k - 1 else k;
      at < |Class(Step(st, e), p)| && Class(Step(st, e), p)[at] == Class(st, p)[k]
    ensures Step(st, e).policy.Priority?
  {
    hide Step, Enabled, Inv, LeavesClass, JoinsClass, Class, Queue, Joins, Switches;
    ClassLaw(st, e, p);
    QueueLaw(st, e);
  }

  lemma ClassUnrolled(st: State, evs: seq<Event>, p: int)
    requires Possible(st, evs) && evs != []
    ensures Enabled(st, evs[0]) && Possible(Step(st, evs[0]), evs[1..])
    ensures Run(st, evs) == Run(Step(st, evs[0]), evs[1..])
    ensures ClassCalls(st, evs, p) == (if LeavesClass(st, evs[0], p) then 1 else 0) + ClassCalls(Step(st, evs[0]), evs[1..], p)
  {
    hide Step, Enabled, LeavesClass;
  }

  lemma NoCalls(st: State, p: int)
    ensures Possible(st, []) && Run(st, []) == st && ClassCalls(st, [], p) == 0 && Calls(st, []) == 0
  {
  }

  lemma {:induction false} ClassMovesUp(st: State, evs: seq<Event>, p: int, k: nat)
    requires Inv(st) && st.policy.Priority? && Possible(st, evs) && k < |Class(st, p)| && ClassCalls(st, evs, p) <= k
    ensures var n := ClassCalls(st, evs, p); var r := Run(st, evs);
      k - n < |Class(r, p)| && Class(r, p)[k - n] == Class(st, p)[k] && r.policy.Priority?
    decreases |evs|
  {
    hide *;
    if evs == [] {
      NoCalls(st, p);
    } else {
      ClassUnrolled(st, evs, p);
      ClassPlace(st, evs[0], p, k);
      StepKeeps(st, evs[0]);
      ClassMovesUp(Step(st, evs[0]), evs[1..], p, if LeavesClass(st, evs[0], p) then k - 1 else k);
    }
  }

  /** By priority, a ready thread waits for exactly those of its own priority that were ready before it. */
  lemma BoundedDispatchByPriority(st: State, evs: seq<Event>, e: Event, p: int, k: nat)
    requires Inv(st) && st.policy.Priority? && Possible(st, evs) && k < |Class(st, p)| && ClassCalls(st, evs, p) == k
    requires Enabled(Run(st, evs), e)
    ensures var r := Run(st, evs);
      Class(r, p) != [] && Class(r, p)[0] == Class(st, p)[k] && (LeavesClass(r, e, p) ==> Step(r, e).current == Class(st, p)[k])
  {
    hide *;
    ClassMovesUp(st, evs, p, k);
    RunKeeps(st, evs);
    ClassLaw(Run(st, evs), e, p);
  }
}
