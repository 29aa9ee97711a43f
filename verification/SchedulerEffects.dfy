/** What a step of the scheduler looks like to the layers above it. */
module SchedulerEffects {
  import opened Machine
  import opened Scheduler
  import opened SchedulerProofs

  function WantAfter(st: State, e: Event): Option<nat>
    requires Enabled(st, e)
  {
    if e.DoDown? then if st.semas[e.s].value == 0 then Some(e.s) else None else st.threads[st.current].want
  }

  function ValueAfter(st: State, e: Event, s: nat): int
    requires Enabled(st, e) && s in st.semas
  {
    st.semas[s].value +
    if e == DoUp(s) then 1
    else if (e == DoDown(s) || e == DoTryDown(s)) && st.semas[s].value > 0 then -1 else 0
  }

  predicate Stopped(status: Status) {
    status.Blocked? || status.Dying?
  }

  /** What a layer above can see of a step: who wants what, who stops, what the semaphores hold. */
  predicate ThreadEffect(st: State, e: Event, r: State, t: nat)
    requires Enabled(st, e) && t in st.threads
  {
    && t in r.threads
    && r.threads[t].want == (if t == st.current then WantAfter(st, e) else st.threads[t].want)
    && (Stopped(r.threads[t].status) && !Stopped(st.threads[t].status) ==>
          t == st.current && (e.DoBlock? || e.DoExit? || WantAfter(st, e).Some?))
  }

  predicate SemaEffect(st: State, e: Event, r: State)
    requires Enabled(st, e)
  {
    && (forall s :: s in st.semas ==> s in r.semas && r.semas[s].value == ValueAfter(st, e, s))
    && (forall s :: s in r.semas && s !in st.semas ==> e.DoSemaInit? && e.s == s && r.semas[s].value == e.value)
    && (e.DoSemaInit? ==> e.s in r.semas)
  }

  predicate Effect(st: State, e: Event, r: State)
    requires Enabled(st, e)
  {
    && (forall t :: t in st.threads ==> ThreadEffect(st, e, r, t))
    && (forall t :: t in r.threads && t !in st.threads ==> r.threads[t].want == None && e.DoSpawn?)
    && SemaEffect(st, e, r)
  }

  lemma StepThreadEffect(st: State, e: Event, t: nat)
    requires Enabled(st, e) && t in st.threads
    ensures ThreadEffect(st, e, Step(st, e), t)
  {
    hide Enqueue;
  }

  lemma StepValue(st: State, e: Event, s: nat)
    requires Enabled(st, e) && s in st.semas
    ensures s in Step(st, e).semas && Step(st, e).semas[s].value == ValueAfter(st, e, s)
  {
    hide Enqueue;
  }

  lemma StepNewSemas(st: State, e: Event)
    requires Enabled(st, e)
    ensures forall s :: s in Step(st, e).semas && s !in st.semas ==>
      e.DoSemaInit? && e.s == s && Step(st, e).semas[s].value == e.value
    ensures e.DoSemaInit? ==> e.s in Step(st, e).semas
  {
    hide Enqueue;
  }

  lemma StepSemaEffect(st: State, e: Event)
    requires Enabled(st, e)
    ensures SemaEffect(st, e, Step(st, e))
  {
    hide Step, Enabled, ValueAfter;
    StepNewSemas(st, e);
    forall s | s in st.semas ensures s in Step(st, e).semas && Step(st, e).semas[s].value == ValueAfter(st, e, s) {
      StepValue(st, e, s);
    }
  }

  lemma StepNewThreads(st: State, e: Event)
    requires Enabled(st, e)
    ensures forall t :: t in Step(st, e).threads && t !in st.threads ==>
      Step(st, e).threads[t].want == None && e.DoSpawn?
  {
    hide Enqueue;
  }

  lemma StepEffect(st: State, e: Event)
    requires Enabled(st, e)
    ensures Effect(st, e, Step(st, e))
  {
    hide Step, Enabled, ThreadEffect, SemaEffect;
    StepSemaEffect(st, e);
    StepNewThreads(st, e);
    forall t | t in st.threads ensures ThreadEffect(st, e, Step(st, e), t) {
      StepThreadEffect(st, e, t);
    }
  }

  /** Plainly blocked threads stay so until somebody unblocks them by name. */
  lemma PlainlyBlockedStays(st: State, e: Event, t: nat)
    requires Inv(st) && Enabled(st, e) && t in st.threads && e != DoUnblock(t)
    requires st.threads[t].status == Blocked && st.threads[t].want == None && t != st.idle
    ensures t in Step(st, e).threads && Step(st, e).threads[t] == st.threads[t]
  {
    hide Up, Yield, Inv;
    if e.DoUp? {
      UpSpares(st, e.s, t);
    } else if e == DoYield {
      YieldSpares(st, t);
    } else {
      NextIsReady(st);
      hide Next;
    }
  }

  lemma NextIsReady(st: State)
    requires Inv(st)
    ensures Next(st) == st.idle || (Next(st) in st.threads && st.threads[Next(st)].status == Ready)
    ensures st.threads[st.current].status == Running
  {
    hide SemasOk;
    assert st.ready != [] ==> st.ready[0] in st.ready;
  }

  lemma UpSpares(st: State, s: nat, t: nat)
    requires Inv(st) && s in st.semas && t in st.threads && st.threads[t].want == None
    ensures t in Up(st, s).threads && Up(st, s).threads[t] == st.threads[t]
  {
    assert WaitersOk(st, s);
    assert st.semas[s].waiters != [] ==> Awaits(st, st.semas[s].waiters[0], s);
    hide Enqueue, SemasOk, ReadyOk;
  }

  lemma YieldSpares(st: State, t: nat)
    requires Inv(st) && t in st.threads && st.threads[t].status == Blocked && t != st.idle
    ensures t in Yield(st).threads && Yield(st).threads[t] == st.threads[t]
  {
    if st.current != st.idle {
      Enqueued(st, st.current);
      assert t !in Enqueue(st, st.current);
    }
    hide Enqueue, SemasOk, Keys;
  }
}
