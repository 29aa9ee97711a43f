/** What every step does to the processor, and to each thread's status and priority, in terms of the event and
    the lists alone. */
module SchedulerLaws {
  import opened Machine
  import opened OrderedList
  import opened Scheduler
  import opened SchedulerProofs
  import opened SchedulerEffects
  import opened SchedulerRuns

  /** The running thread gives the processor away in exactly four ways. */
  predicate GivesWay(st: State, e: Event) {
    e.DoYield? || e.DoBlock? || e.DoExit? || (e.DoDown? && e.s in st.semas && st.semas[e.s].value == 0)
  }

  /** First in, first out: when the running thread gives way the front of the ready list runs, a yielding thread
      having gone to its end, or else the idle thread. Nothing else changes who runs. */
  lemma ProcessorGoes(st: State, e: Event)
    requires Enabled(st, e)
    ensures !GivesWay(st, e) ==> Step(st, e).current == st.current
    ensures st.policy.Fifo? && GivesWay(st, e) ==>
      var q := st.ready + if e.DoYield? && st.current != st.idle then [st.current] else [];
      && Step(st, e).current == (if q == [] then st.idle else q[0])
      && Step(st, e).ready == (if q == [] then [] else q[1..])
  {
    hide Keys;
  }

  /** The status of each thread after each step. */
  lemma StatusAfter(st: State, e: Event, t: nat)
    requires Inv(st) && Enabled(st, e) && t in st.threads
    ensures t in Step(st, e).threads
    ensures Step(st, e).threads[t].status ==
      if t == Step(st, e).current then Running
      else if t == st.current then if e.DoYield? then Ready else if e.DoExit? then Dying else Blocked
      else if e == DoUnblock(t) || (e.DoUp? && st.semas[e.s].waiters != [] && st.semas[e.s].waiters[0] == t) then Ready
      else st.threads[t].status
  {
    hide Step, Inv;
    ProcessorGoes(st, e);
    if GivesWay(st, e) {
      StatusGivenUp(st, e, t);
    } else {
      StatusKept(st, e, t);
    }
  }

  lemma StatusGivenUp(st: State, e: Event, t: nat)
    requires Enabled(st, e) && GivesWay(st, e) && t in st.threads
    ensures t in Step(st, e).threads
    ensures Step(st, e).threads[t].status ==
      if t == Step(st, e).current then Running
      else if t == st.current then if e.DoYield? then Ready else if e.DoExit? then Dying else Blocked
      else st.threads[t].status
  {
    hide Enqueue, Next;
  }

  lemma StatusKept(st: State, e: Event, t: nat)
    requires Inv(st) && Enabled(st, e) && !GivesWay(st, e) && t in st.threads
    ensures t in Step(st, e).threads
    ensures Step(st, e).threads[t].status ==
      if t == st.current then Running
      else if e == DoUnblock(t) || (e.DoUp? && st.semas[e.s].waiters != [] && st.semas[e.s].waiters[0] == t) then Ready
      else st.threads[t].status
  {
    RunningIs(st);
    NotWaiting(st, e);
    hide Inv, Enqueue;
  }

  /** The running thread is not among those a step may wake. */
  lemma NotWaiting(st: State, e: Event)
    requires Inv(st) && Enabled(st, e)
    ensures e.DoUp? && st.semas[e.s].waiters != [] ==> st.semas[e.s].waiters[0] != st.current
  {
    RunningIs(st);
    if e.DoUp? && st.semas[e.s].waiters != [] {
      assert WaitersOk(st, e.s) && st.semas[e.s].waiters[0] in st.semas[e.s].waiters;
    }
  }

  lemma RunningIs(st: State)
    requires Inv(st)
    ensures st.current in st.threads && st.threads[st.current].status == Running
  {
  }

  /** Only `thread_set_priority` changes a priority, the running thread's own, to what was asked for; a new
      thread is blocked, with the priority it was created with. */
  lemma PriorityAfter(st: State, e: Event, t: nat)
    requires Enabled(st, e)
    ensures t in st.threads ==>
      t in Step(st, e).threads &&
      Step(st, e).threads[t].priority == if e.DoSetPriority? && t == st.current then e.priority else st.threads[t].priority
    ensures t in Step(st, e).threads && t !in st.threads ==>
      e.DoSpawn? && e.t == t && Step(st, e).threads[t] == Thread(Blocked, e.priority, None)
    ensures e.DoSpawn? ==> e.t in Step(st, e).threads
  {
    hide Enqueue;
  }

  /** When the processor has changed hands, no thread left on the ready list has a greater priority than the one
      that runs. */
  lemma RunsHighest(st: State, e: Event, t: nat)
    requires Inv(st) && st.policy.Priority? && Enabled(st, e) && GivesWay(st, e) && t in Step(st, e).ready
    ensures var r := Step(st, e);
      t in r.threads && r.current in r.threads && r.threads[t].priority <= r.threads[r.current].priority
  {
    hide Step, Enabled, Queue;
    Chosen(st, e);
    QueueLaw(st, e);
    PicksHighest(st, e, t);
    PriorityAfter(st, e, t);
    PriorityAfter(st, e, Step(st, e).current);
    PriorityIs(st, t);
    PriorityIs(st, Step(st, e).current);
  }

  lemma PriorityIs(st: State, t: nat)
    requires t in st.threads
    ensures PriorityOf(st, t) == st.threads[t].priority
  {
  }

  /** Who runs and who waits to run were there before, and who runs was waiting, is the idle thread, or stays. */
  lemma Chosen(st: State, e: Event)
    requires Inv(st) && Enabled(st, e)
    ensures Step(st, e).current in st.threads && (e.DoSpawn? || forall t :: t in Step(st, e).ready ==> t in st.threads)
    ensures var c := Step(st, e).current; c == st.current || c == st.idle || (c in st.ready && st.threads[c].status == Ready)
    ensures st.idle in st.threads && st.threads[st.idle].status != Dying && st.threads[st.current].status == Running
    ensures GivesWay(st, e) <==> Switches(st, e)
    ensures GivesWay(st, e) ==> forall t :: t in Step(st, e).ready ==> t in Queue(st, e)
  {
    QueueLaw(st, e);
    QueueMembers(st, e);
    hide Step, Queue, SemasOk, Keys, Enqueue;
  }

  lemma QueueMembers(st: State, e: Event)
    requires Inv(st) && Enabled(st, e)
    ensures forall t :: t in Queue(st, e) ==> t in st.ready || Joins(st, e) == Some(t)
    ensures forall t :: Joins(st, e) == Some(t) ==> t in st.threads && (Switches(st, e) ==> t == st.current)
  {
    if Joins(st, e).Some? {
      JoinerKnown(st, e);
      Enqueued(st, Joins(st, e).value);
    }
    hide Enqueue, Inv;
  }

  lemma JoinerKnown(st: State, e: Event)
    requires Inv(st) && Enabled(st, e) && Joins(st, e).Some?
    ensures var t := Joins(st, e).value; t in st.threads && t !in st.ready && (Switches(st, e) ==> t == st.current)
    ensures NoDuplicates(st.ready) && (st.policy.Priority? ==> Sorted(Keys(st, st.ready)))
  {
    if e.DoUp? {
      assert WaitersOk(st, e.s) && st.semas[e.s].waiters[0] in st.semas[e.s].waiters;
    }
    hide Keys;
  }

  // ---------------------------------------------------------------- a thread that has exited

  lemma DyingStays(st: State, e: Event, t: nat)
    requires Inv(st) && Enabled(st, e) && t in st.threads && st.threads[t].status == Dying
    ensures t in Step(st, e).threads && Step(st, e).threads[t].status == Dying && t != Step(st, e).current
  {
    hide Step, Queue;
    Chosen(st, e);
    StatusAfter(st, e, t);
    NotWoken(st, e, t);
  }

  lemma NotWoken(st: State, e: Event, t: nat)
    requires Inv(st) && Enabled(st, e) && t in st.threads && st.threads[t].status == Dying
    ensures e != DoUnblock(t) && !(e.DoUp? && st.semas[e.s].waiters != [] && st.semas[e.s].waiters[0] == t)
  {
    if e.DoUp? && st.semas[e.s].waiters != [] {
      assert WaitersOk(st, e.s) && st.semas[e.s].waiters[0] in st.semas[e.s].waiters;
    }
  }

  lemma {:induction false} StaysDying(st: State, evs: seq<Event>, t: nat)
    requires Inv(st) && Possible(st, evs) && t in st.threads && st.threads[t].status == Dying
    ensures t in Run(st, evs).threads && Run(st, evs).threads[t].status == Dying
    decreases |evs|
  {
    if evs != [] {
      Unrolled(st, evs);
      hide *;
      DyingStays(st, evs[0], t);
      StepKeeps(st, evs[0]);
      StaysDying(Step(st, evs[0]), evs[1..], t);
    }
  }

  /** A thread that has exited never runs again. */
  lemma ExitIsFinal(st: State, evs: seq<Event>)
    requires Inv(st) && Enabled(st, DoExit) && Possible(Step(st, DoExit), evs)
    ensures var r := Run(Step(st, DoExit), evs);
      st.current in r.threads && r.threads[st.current].status == Dying && r.current != st.current
  {
    var t := st.current;
    StepKeeps(st, DoExit);
    ExitedDying(st);
    RunKeeps(Step(st, DoExit), evs);
    StaysDying(Step(st, DoExit), evs, t);
    RunningIs(Run(Step(st, DoExit), evs));
    hide Step, Run, Possible, Inv;
  }

  lemma ExitedDying(st: State)
    requires Inv(st) && Enabled(st, DoExit)
    ensures st.current in Step(st, DoExit).threads && Step(st, DoExit).threads[st.current].status == Dying
  {
    StatusAfter(st, DoExit, st.current);
    NextIsReady(st);
    RunningIs(st);
    hide Inv;
  }
}
