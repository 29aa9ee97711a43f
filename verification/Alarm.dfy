/** The alarm clock (Project 1/timer.c:95-111, 186-209): sleepers wait in order of their wake ticks, and
    the timer interrupt readies those whose tick has come. */
module Alarm {
  import opened Machine
  import opened OrderedList
  import Scheduler
  import SchedulerProofs
  import opened SchedulerEffects
  import K = Kernel

  /** A sleeping thread and its `wake_tick`. */
  datatype Sleeper = Sleeper(t: nat, wake: int)

  /** `starting` holds the wake ticks of threads that have read the clock and are not yet on the list. */
  datatype State = State(core: Scheduler.State, ticks: int, waiting: seq<Sleeper>, starting: map<nat, int>)

  function Wakes(list: seq<Sleeper>): (keys: seq<int>)
    ensures |keys| == |list|
  {
    seq(|list|, i requires 0 <= i < |list| => list[i].wake)
  }

  predicate Asleep(a: State, t: nat) {
    exists i :: 0 <= i < |a.waiting| && a.waiting[i].t == t
  }

  datatype Event =
    | ReadClock(n: int)   // timer_sleep has read the clock
    | GoToSleep           // the rest of timer_sleep, with interrupts off
    | Interrupt
    | Kernel(e: Scheduler.Event)

  /** What can come between a thread's two steps in `timer_sleep`: preemption and interrupt handlers. */
  predicate Bystander(e: Scheduler.Event) {
    e.DoYield? || e.DoUp? || e.DoUnblock?
  }

  predicate Enabled(a: State, e: Event) {
    var me := a.core.current;
    me in a.core.threads &&
    match e
    case ReadClock(n) => a.core.threads[me].want == None && me !in a.starting && me != a.core.idle
    case GoToSleep => a.core.threads[me].want == None && me in a.starting && me != a.core.idle
    case Interrupt => true
    case Kernel(k) => Scheduler.Enabled(a.core, k) && (k.DoUnblock? ==> !Asleep(a, k.t)) && (me in a.starting ==> Bystander(k))
  }

  /** The sleepers that are left once those due have been taken off the front. */
  function Left(list: seq<Sleeper>, now: int): (left: seq<Sleeper>)
    ensures |left| <= |list| && left == list[|list| - |left|..]
  {
    if list == [] || list[0].wake > now then list else Left(list[1..], now)
  }

  /** The threads after those due have been readied, in order. */
  function Readied(core: Scheduler.State, list: seq<Sleeper>, now: int): Scheduler.State
    decreases |list|
  {
    if list == [] || list[0].wake > now then core else Readied(Scheduler.Unblock(core, list[0].t), list[1..], now)
  }

  function Listed(list: seq<Sleeper>, s: Sleeper): seq<Sleeper> {
    Inserted(list, Place(Wakes(list), s.wake), s)
  }

  function Step(a: State, e: Event): State
    requires Enabled(a, e)
  {
    var me := a.core.current;
    match e
    case ReadClock(n) => a.(starting := a.starting[me := a.ticks + n])
    case GoToSleep => a.(core := Scheduler.Block(a.core), waiting := Listed(a.waiting, Sleeper(me, a.starting[me])),
                         starting := a.starting - {me})
    case Interrupt => a.(ticks := a.ticks + 1, core := Readied(a.core, a.waiting, a.ticks + 1), waiting := Left(a.waiting, a.ticks + 1))
    case Kernel(k) => a.(core := Scheduler.Step(a.core, k))
  }

  // ---------------------------------------------------------------- what every step keeps

  predicate SleepsOk(core: Scheduler.State, s: Sleeper) {
    s.t in core.threads && s.t != core.idle && core.threads[s.t].status == Scheduler.Blocked && core.threads[s.t].want == None
  }

  predicate OncePerThread(list: seq<Sleeper>) {
    forall i, j :: 0 <= i < j < |list| ==> list[i].t != list[j].t
  }

  /** The list is in order of wake ticks and each sleeper is on it once, blocked and in no semaphore. */
  predicate ListOk(core: Scheduler.State, list: seq<Sleeper>) {
    && Sorted(Wakes(list)) && OncePerThread(list)
    && (forall i :: 0 <= i < |list| ==> SleepsOk(core, list[i]))
  }

  /** A thread that has read the clock is awake and in no semaphore. */
  predicate StartsOk(core: Scheduler.State, starting: map<nat, int>) {
    forall t :: t in starting ==> t in core.threads && !Stopped(core.threads[t].status) && core.threads[t].want == None
  }

  predicate Inv(a: State) {
    Scheduler.Inv(a.core) && ListOk(a.core, a.waiting) && StartsOk(a.core, a.starting)
  }

  lemma InsertedOk(core: Scheduler.State, list: seq<Sleeper>, s: Sleeper)
    requires ListOk(core, list) && SleepsOk(core, s) && forall i :: 0 <= i < |list| ==> list[i].t != s.t
    ensures ListOk(core, Listed(list, s))
  {
    var at := Place(Wakes(list), s.wake);
    var r := Listed(list, s);
    InsertKeepsSorted(Wakes(list), s.wake);
    assert Wakes(r) == Inserted(Wakes(list), at, s.wake);
    hide Sorted, Place;
    assert forall i :: 0 <= i < |r| ==> r[i] == if i < at then list[i] else if i == at then s else list[i - 1];
  }

  /** Nothing that leaves the sleepers as they were disturbs the list. */
  lemma ListLeft(a: Scheduler.State, b: Scheduler.State, list: seq<Sleeper>)
    requires ListOk(a, list) && b.idle == a.idle
    requires forall i :: 0 <= i < |list| ==> list[i].t in b.threads && b.threads[list[i].t] == a.threads[list[i].t]
    ensures ListOk(b, list)
  {
    hide Sorted;
  }

  lemma TailOk(core: Scheduler.State, list: seq<Sleeper>)
    requires ListOk(core, list) && list != []
    ensures ListOk(core, list[1..])
  {
    assert Wakes(list[1..]) == Wakes(list)[1..];
  }

  lemma UnblockSeen(core: Scheduler.State, t: nat)
    requires t in core.threads
    ensures var r := Scheduler.Unblock(core, t);
      && r.threads == core.threads[t := core.threads[t].(status := Scheduler.Ready)]
      && r.idle == core.idle && r.current == core.current && r.policy == core.policy
  {
  }

  /** A sleeper of this thread is due. */
  predicate Due(list: seq<Sleeper>, t: nat, now: int) {
    exists i :: 0 <= i < |list| && list[i].t == t && list[i].wake <= now
  }

  lemma FirstUnblocked(core: Scheduler.State, list: seq<Sleeper>)
    requires Scheduler.Inv(core) && ListOk(core, list) && list != []
    ensures var r := Scheduler.Unblock(core, list[0].t);
      && Scheduler.Inv(r) && ListOk(r, list[1..]) && r.current == core.current && r.idle == core.idle
      && list[0].t in core.threads && core.threads[list[0].t].status == Scheduler.Blocked
      && r.threads == core.threads[list[0].t := core.threads[list[0].t].(status := Scheduler.Ready)]
  {
    var t := list[0].t;
    assert SleepsOk(core, list[0]);
    hide Scheduler.Inv, Scheduler.Unblock;
    SchedulerProofs.UnblockKeeps(core, t);
    UnblockSeen(core, t);
    TailOk(core, list);
    ListLeft(core, Scheduler.Unblock(core, t), list[1..]);
  }

  /** The loop of the interrupt handler readies exactly the sleepers whose tick has come, and leaves the
      list and every other thread as it should be. */
  lemma {:induction false} ReadiedKeeps(core: Scheduler.State, list: seq<Sleeper>, now: int)
    requires Scheduler.Inv(core) && ListOk(core, list)
    ensures var r := Readied(core, list, now);
      Scheduler.Inv(r) && ListOk(r, Left(list, now)) && r.threads.Keys == core.threads.Keys && r.current == core.current && r.idle == core.idle
    decreases |list|
  {
    hide Scheduler.Inv, Scheduler.Unblock, ListOk;
    if list != [] && list[0].wake <= now {
      FirstUnblocked(core, list);
      ReadiedKeeps(Scheduler.Unblock(core, list[0].t), list[1..], now);
    }
  }

  lemma DueStep(list: seq<Sleeper>, t: nat, now: int)
    requires list != []
    ensures Due(list, t, now) == ((list[0].t == t && list[0].wake <= now) || Due(list[1..], t, now))
  {
    if Due(list, t, now) {
      var i :| 0 <= i < |list| && list[i].t == t && list[i].wake <= now;
      assert i > 0 ==> list[1..][i - 1] == list[i];
    }
    if Due(list[1..], t, now) {
      var i :| 0 <= i < |list[1..]| && list[1..][i].t == t && list[1..][i].wake <= now;
      assert list[i + 1].t == t;
    }
  }

  lemma NoneDue(list: seq<Sleeper>, now: int, t: nat)
    requires Sorted(Wakes(list)) && (list != [] ==> list[0].wake > now)
    ensures !Due(list, t, now)
  {
    forall i | 0 <= i < |list| ensures list[i].wake > now {
      assert Wakes(list)[i] == list[i].wake && Wakes(list)[0] == list[0].wake;
    }
  }

  lemma {:induction false} ReadiedThread(core: Scheduler.State, list: seq<Sleeper>, now: int, t: nat)
    requires Scheduler.Inv(core) && ListOk(core, list) && t in core.threads
    ensures t in Readied(core, list, now).threads
    ensures Readied(core, list, now).threads[t] ==
      if Due(list, t, now) then core.threads[t].(status := Scheduler.Ready) else core.threads[t]
    decreases |list|
  {
    if list != [] && list[0].wake <= now {
      hide Scheduler.Inv, Scheduler.Unblock, ListOk, Due;
      FirstUnblocked(core, list);
      DueStep(list, t, now);
      ReadiedThread(Scheduler.Unblock(core, list[0].t), list[1..], now, t);
    } else {
      hide Scheduler.Inv, Scheduler.Unblock;
      NoneDue(list, now, t);
    }
  }

  /** What stays on the list is exactly what is not yet due. */
  lemma {:induction false} LeftExactly(list: seq<Sleeper>, now: int, s: Sleeper)
    requires Sorted(Wakes(list))
    ensures s in Left(list, now) <==> s in list && s.wake > now
  {
    if list != [] {
      if list[0].wake <= now {
        assert Wakes(list[1..]) == Wakes(list)[1..];
        LeftExactly(list[1..], now, s);
        assert list == [list[0]] + list[1..];
      } else if s in list {
        var i :| 0 <= i < |list| && list[i] == s;
        assert Wakes(list)[0] <= Wakes(list)[i];
      }
    }
  }

  // ---------------------------------------------------------------- every step

  lemma KernelKeeps(a: State, k: Scheduler.Event)
    requires Inv(a) && Enabled(a, Kernel(k))
    ensures Inv(Step(a, Kernel(k)))
  {
    hide Scheduler.Inv, Scheduler.Step, ListOk, StartsOk, Scheduler.Enabled;
    SchedulerProofs.StepKeeps(a.core, k);
    IdleStays(a.core, k);
    SleepersStay(a, k);
    StartersStay(a, k);
    ListLeft(a.core, Scheduler.Step(a.core, k), a.waiting);
  }

  lemma SleepersStay(a: State, k: Scheduler.Event)
    requires Inv(a) && Enabled(a, Kernel(k))
    ensures var r := Scheduler.Step(a.core, k);
      forall i :: 0 <= i < |a.waiting| ==> a.waiting[i].t in r.threads && r.threads[a.waiting[i].t] == a.core.threads[a.waiting[i].t]
  {
    hide Scheduler.Inv, Scheduler.Step, Scheduler.Enabled, StartsOk;
    forall i | 0 <= i < |a.waiting| ensures a.waiting[i].t in Scheduler.Step(a.core, k).threads
      && Scheduler.Step(a.core, k).threads[a.waiting[i].t] == a.core.threads[a.waiting[i].t]
    {
      assert SleepsOk(a.core, a.waiting[i]);
      PlainlyBlockedStays(a.core, k, a.waiting[i].t);
    }
  }

  lemma StartersStay(a: State, k: Scheduler.Event)
    requires Inv(a) && Enabled(a, Kernel(k))
    ensures StartsOk(Scheduler.Step(a.core, k), a.starting)
  {
    hide Scheduler.Inv, Scheduler.Step, Scheduler.Enabled, ListOk;
    forall t | t in a.starting ensures var r := Scheduler.Step(a.core, k);
      t in r.threads && !Stopped(r.threads[t].status) && r.threads[t].want == None
    {
      StepThreadEffect(a.core, k, t);
    }
  }

  lemma IdleStays(st: Scheduler.State, e: Scheduler.Event)
    requires Scheduler.Enabled(st, e)
    ensures Scheduler.Step(st, e).idle == st.idle
  {
  }

  lemma BlockSeen(core: Scheduler.State)
    requires Scheduler.Inv(core) && core.threads[core.current].want == None && core.current != core.idle
    ensures core.current in Scheduler.Block(core).threads
    ensures Scheduler.Block(core).threads[core.current] == core.threads[core.current].(status := Scheduler.Blocked)
  {
    assert Scheduler.Next(core) != core.current;
    hide Scheduler.SemasOk, Scheduler.Keys;
  }

  lemma SleeperNotRunning(core: Scheduler.State, list: seq<Sleeper>)
    requires Scheduler.Inv(core) && ListOk(core, list)
    ensures forall i :: 0 <= i < |list| ==> list[i].t != core.current
  {
    forall i | 0 <= i < |list| ensures list[i].t != core.current {
      assert SleepsOk(core, list[i]);
    }
  }

  lemma GoToSleepKeeps(a: State)
    requires Inv(a) && Enabled(a, GoToSleep)
    ensures Inv(Step(a, GoToSleep))
  {
    hide Scheduler.Inv, Scheduler.Step, Scheduler.Block, ListOk, StartsOk;
    var me := a.core.current;
    var r := Step(a, GoToSleep);
    SchedulerProofs.BlockKeeps(a.core);
    BlockSeen(a.core);
    SleeperNotRunning(a.core, a.waiting);
    BlockLeaves(a);
    InsertedOk(r.core, a.waiting, Sleeper(me, a.starting[me]));
  }

  lemma BlockLeaves(a: State)
    requires Inv(a) && Enabled(a, GoToSleep)
    ensures ListOk(Scheduler.Block(a.core), a.waiting)
    ensures StartsOk(Scheduler.Block(a.core), a.starting - {a.core.current})
    ensures Scheduler.Block(a.core).idle == a.core.idle
  {
    hide Scheduler.Inv, Scheduler.Block, ListOk;
    var k := Scheduler.DoBlock;
    var r := Scheduler.Block(a.core);
    assert Scheduler.Enabled(a.core, k) && Scheduler.Step(a.core, k) == r;
    hide Scheduler.Step, Scheduler.Enabled;
    IdleStays(a.core, k);
    BlockedStay(a, k);
    ListLeft(a.core, r, a.waiting);
    forall t | t in a.starting - {a.core.current} ensures t in r.threads && !Stopped(r.threads[t].status) && r.threads[t].want == None {
      StepThreadEffect(a.core, k, t);
    }
  }

  lemma BlockedStay(a: State, k: Scheduler.Event)
    requires Inv(a) && Scheduler.Enabled(a.core, k) && !k.DoUnblock?
    ensures var r := Scheduler.Step(a.core, k);
      forall i :: 0 <= i < |a.waiting| ==> a.waiting[i].t in r.threads && r.threads[a.waiting[i].t] == a.core.threads[a.waiting[i].t]
  {
    hide Scheduler.Inv, Scheduler.Step, Scheduler.Enabled, StartsOk;
    forall i | 0 <= i < |a.waiting| ensures a.waiting[i].t in Scheduler.Step(a.core, k).threads
      && Scheduler.Step(a.core, k).threads[a.waiting[i].t] == a.core.threads[a.waiting[i].t]
    {
      assert SleepsOk(a.core, a.waiting[i]);
      PlainlyBlockedStays(a.core, k, a.waiting[i].t);
    }
  }

  lemma InterruptKeeps(a: State)
    requires Inv(a) && Enabled(a, Interrupt)
    ensures Inv(Step(a, Interrupt))
  {
    hide Scheduler.Inv, ListOk, Due, Readied, Left;
    var now := a.ticks + 1;
    ReadiedKeeps(a.core, a.waiting, now);
    forall t | t in a.starting ensures var r := Readied(a.core, a.waiting, now);
      t in r.threads && !Stopped(r.threads[t].status) && r.threads[t].want == None
    {
      ReadiedThread(a.core, a.waiting, now, t);
    }
  }

  lemma ReadClockKeeps(a: State, n: int)
    requires Inv(a) && Enabled(a, ReadClock(n))
    ensures Inv(Step(a, ReadClock(n)))
  {
    hide ListOk, Scheduler.ReadyOk, Scheduler.SemasOk;
  }

  /** Every step keeps the list in order and its threads asleep. */
  lemma StepKeeps(a: State, e: Event)
    requires Inv(a) && Enabled(a, e)
    ensures Inv(Step(a, e))
  {
    hide Inv, Step;
    match e
    case ReadClock(n) => ReadClockKeeps(a, n);
    case GoToSleep => GoToSleepKeeps(a);
    case Interrupt => InterruptKeeps(a);
    case Kernel(k) => KernelKeeps(a, k);
  }

  // ---------------------------------------------------------------- runs

  predicate Possible(a: State, evs: seq<Event>)
    decreases |evs|
  {
    evs == [] || (Enabled(a, evs[0]) && Possible(Step(a, evs[0]), evs[1..]))
  }

  function Run(a: State, evs: seq<Event>): State
    requires Possible(a, evs)
    decreases |evs|
  {
    if evs == [] then a else Run(Step(a, evs[0]), evs[1..])
  }

  function Interrupts(evs: seq<Event>): nat {
    if evs == [] then 0 else (if evs[0].Interrupt? then 1 else 0) + Interrupts(evs[1..])
  }

  lemma {:induction false} RunKeeps(a: State, evs: seq<Event>)
    requires Inv(a) && Possible(a, evs)
    ensures Inv(Run(a, evs))
    decreases |evs|
  {
    if evs != [] {
      StepKeeps(a, evs[0]);
      hide Inv, Step, Enabled;
      RunKeeps(Step(a, evs[0]), evs[1..]);
    }
  }

  /** One step moves the clock by one exactly if it is an interrupt, and takes off the list nobody but,
      at an interrupt, those due. */
  lemma SleeperStep(a: State, e: Event, s: Sleeper)
    requires Inv(a) && Enabled(a, e) && s in a.waiting
    ensures Step(a, e).ticks == a.ticks + if e.Interrupt? then 1 else 0
    ensures s in Step(a, e).waiting <==> !(e.Interrupt? && s.wake <= a.ticks + 1)
    ensures s !in Step(a, e).waiting ==> s.t in Step(a, e).core.threads && Step(a, e).core.threads[s.t].status == Scheduler.Ready
  {
    hide Scheduler.Inv, Scheduler.Step, Scheduler.Enabled, Left, Readied, Scheduler.Block, ListOk, StartsOk, Listed;
    match e
    case Interrupt => DueStaysOrWakes(a, s);
    case GoToSleep => StaysListed(a.waiting, Sleeper(a.core.current, a.starting[a.core.current]), s);
    case _ =>
  }

  lemma DueStaysOrWakes(a: State, s: Sleeper)
    requires Inv(a) && s in a.waiting
    ensures s in Left(a.waiting, a.ticks + 1) <==> s.wake > a.ticks + 1
    ensures s.wake <= a.ticks + 1 ==>
      var r := Readied(a.core, a.waiting, a.ticks + 1); s.t in r.threads && r.threads[s.t].status == Scheduler.Ready
  {
    hide Left, Readied, Scheduler.Inv;
    LeftExactly(a.waiting, a.ticks + 1, s);
    var i :| 0 <= i < |a.waiting| && a.waiting[i] == s;
    assert SleepsOk(a.core, a.waiting[i]);
    hide Sorted, OncePerThread;
    ReadiedThread(a.core, a.waiting, a.ticks + 1, s.t);
  }

  lemma StaysListed(list: seq<Sleeper>, added: Sleeper, s: Sleeper)
    requires s in list
    ensures s in Listed(list, added)
  {
    var at := Place(Wakes(list), added.wake);
    assert list == list[..at] + list[at..];
  }

  /** A sleeper stays asleep as long as there was no interrupt or its tick has not come. */
  lemma {:induction false} NeverEarly(a: State, evs: seq<Event>, s: Sleeper)
    requires Inv(a) && Possible(a, evs) && s in a.waiting
    requires Interrupts(evs) == 0 || a.ticks + Interrupts(evs) < s.wake
    ensures Run(a, evs).ticks == a.ticks + Interrupts(evs) && s in Run(a, evs).waiting
    decreases |evs|
  {
    if evs != [] {
      SleeperStep(a, evs[0], s);
      StepKeeps(a, evs[0]);
      hide Inv, Step, Enabled;
      NeverEarly(Step(a, evs[0]), evs[1..], s);
    }
  }

  /** A sleeper is blocked through every earlier interrupt and readied by the first interrupt after its
      insertion at which the clock reaches its tick: number `max (1, wake - ticks)`. */
  lemma WakesExactly(a: State, evs: seq<Event>, s: Sleeper)
    requires Inv(a) && Possible(a, evs) && s in a.waiting
    requires Interrupts(evs) + 1 == if s.wake - a.ticks > 1 then s.wake - a.ticks else 1
    ensures var r := Run(a, evs);
      s in r.waiting && s.t in r.core.threads && r.core.threads[s.t].status == Scheduler.Blocked
    ensures Enabled(Run(a, evs), Interrupt)
    ensures var n := Step(Run(a, evs), Interrupt);
      s !in n.waiting && s.t in n.core.threads && n.core.threads[s.t].status == Scheduler.Ready && s.t in n.core.ready
  {
    NeverEarly(a, evs, s);
    RunKeeps(a, evs);
    var r := Run(a, evs);
    hide Possible, Run, Interrupts;
    StillAsleep(r, s);
    SleeperStep(r, Interrupt, s);
    StepKeeps(r, Interrupt);
    ReadyListed(Step(r, Interrupt), s.t);
  }

  /** A run in which thread `t` does not take the second step of `timer_sleep`. */
  predicate StillStarting(a: State, evs: seq<Event>, t: nat)
    requires Possible(a, evs)
    decreases |evs|
  {
    evs == [] || (!(evs[0].GoToSleep? && a.core.current == t) && StillStarting(Step(a, evs[0]), evs[1..], t))
  }

  lemma {:induction false} TickRemembered(a: State, evs: seq<Event>, t: nat)
    requires Possible(a, evs) && t in a.starting && StillStarting(a, evs, t)
    ensures t in Run(a, evs).starting && Run(a, evs).starting[t] == a.starting[t]
    decreases |evs|
  {
    if evs != [] {
      var b := Step(a, evs[0]);
      assert t in b.starting && b.starting[t] == a.starting[t];
      hide Step, Enabled;
      TickRemembered(b, evs[1..], t);
    }
  }

  /** A thread that asks for `n` ticks at clock `ticks` is listed for tick `ticks + n`, however many
      interrupts come between its reading of the clock and its going to sleep. */
  lemma AsksFor(a: State, n: int, evs: seq<Event>)
    requires Enabled(a, ReadClock(n)) && Possible(Step(a, ReadClock(n)), evs)
    requires StillStarting(Step(a, ReadClock(n)), evs, a.core.current)
    requires var r := Run(Step(a, ReadClock(n)), evs); Enabled(r, GoToSleep) && r.core.current == a.core.current
    ensures var r := Run(Step(a, ReadClock(n)), evs);
      Sleeper(a.core.current, a.ticks + n) in Step(r, GoToSleep).waiting
  {
    TickRemembered(Step(a, ReadClock(n)), evs, a.core.current);
    var r := Run(Step(a, ReadClock(n)), evs);
    assert r.starting[a.core.current] == a.ticks + n;
    hide Run, Possible, StillStarting, Scheduler.Block;
    var s := Sleeper(a.core.current, a.ticks + n);
    assert Listed(r.waiting, s)[Place(Wakes(r.waiting), s.wake)] == s;
  }

  lemma StillAsleep(a: State, s: Sleeper)
    requires Inv(a) && s in a.waiting
    ensures s.t in a.core.threads && a.core.threads[s.t].status == Scheduler.Blocked && s.t != a.core.idle
    ensures Enabled(a, Interrupt) && Step(a, Interrupt).core.idle == a.core.idle
  {
    hide Sorted, OncePerThread, Scheduler.ReadyOk, Scheduler.SemasOk, Readied, Left;
    var i :| 0 <= i < |a.waiting| && a.waiting[i] == s;
    assert SleepsOk(a.core, a.waiting[i]);
    ReadiedIdle(a.core, a.waiting, a.ticks + 1);
  }

  lemma {:induction false} ReadiedIdle(core: Scheduler.State, list: seq<Sleeper>, now: int)
    ensures Readied(core, list, now).idle == core.idle
    decreases |list|
  {
    if list != [] && list[0].wake <= now {
      ReadiedIdle(Scheduler.Unblock(core, list[0].t), list[1..], now);
    }
  }

  lemma ReadyListed(a: State, t: nat)
    requires Inv(a) && t in a.core.threads && a.core.threads[t].status == Scheduler.Ready && t != a.core.idle
    ensures t in a.core.ready
  {
  }

  /** `wait_list`, the clock and the two routines that work on them. */
  class Timer {
    const kernel: K.Threads
    var ticks: int
    var waitList: seq<Sleeper>
    var starting: map<nat, int>

    ghost function Now(): State
      reads this, kernel
    {
      State(kernel.Core(), ticks, waitList, starting)
    }

    constructor (kernel: K.Threads)
      requires Scheduler.Inv(kernel.Core())
      ensures Inv(Now()) && this.kernel == kernel && ticks == 0 && waitList == [] && starting == map[]
    {
      this.kernel := kernel;
      ticks, waitList, starting := 0, [], map[];
    }

    /** The clock read at the top of `timer_sleep (n)`. */
    method ReadTicks(n: int)
      requires Inv(Now()) && Enabled(Now(), ReadClock(n))
      modifies this`starting
      ensures Now() == Step(old(Now()), ReadClock(n)) && Inv(Now())
    {
      ReadClockKeeps(Now(), n);
      hide Inv;
      starting := starting[kernel.current := ticks + n];
    }

    /** `list_insert_ordered (&wait_list, ..., least_sleep, NULL)`. */
    method Insert(s: Sleeper)
      modifies this`waitList
      ensures waitList == Listed(old(waitList), s)
    {
      ghost var keys := Wakes(waitList);
      var e := 0;
      while e < |waitList| && waitList[e].wake <= s.wake
        invariant e <= |waitList| && forall i :: 0 <= i < e ==> keys[i] <= s.wake
      {
        e := e + 1;
      }
      PlaceIs(keys, s.wake, e);
      waitList := waitList[..e] + [s] + waitList[e..];
    }

    /** The rest of `timer_sleep`: the thread lists itself and blocks. */
    method Sleep()
      requires Inv(Now()) && Enabled(Now(), GoToSleep)
      modifies this, kernel
      ensures Now() == Step(old(Now()), GoToSleep) && Inv(Now())
    {
      GoToSleepKeeps(Now());
      hide ListOk, StartsOk, Scheduler.Inv, Scheduler.Block, Listed;
      var me := kernel.current;
      Insert(Sleeper(me, starting[me]));
      starting := starting - {me};
      kernel.ThreadBlock();
    }

    /** `timer_interrupt`. */
    method Tick()
      requires Inv(Now()) && Enabled(Now(), Interrupt)
      modifies this, kernel
      ensures Now() == Step(old(Now()), Interrupt) && Inv(Now())
    {
      hide Inv, ListOk, StartsOk, Scheduler.Inv, Left, Readied, Scheduler.Unblock;
      ghost var before := Now();
      InterruptKeeps(before);
      InvParts(before);
      ticks := ticks + 1;
      while waitList != [] && waitList[0].wake <= ticks
        invariant ticks == before.ticks + 1 && starting == before.starting
        invariant Scheduler.Inv(kernel.Core()) && ListOk(kernel.Core(), waitList)
        invariant Readied(kernel.Core(), waitList, ticks) == Readied(before.core, before.waiting, ticks)
        invariant Left(waitList, ticks) == Left(before.waiting, ticks)
        decreases |waitList|
      {
        ReadiedUnrolls(kernel.Core(), waitList, ticks);
        WakeFirst();
      }
      ReadiedUnrolls(kernel.Core(), waitList, ticks);
    }

    /** `list_pop_front (&wait_list)` and `thread_unblock`. */
    method WakeFirst()
      requires Scheduler.Inv(kernel.Core()) && ListOk(kernel.Core(), waitList) && waitList != []
      modifies this`waitList, kernel
      ensures waitList == old(waitList)[1..]
      ensures kernel.Core() == Scheduler.Unblock(old(kernel.Core()), old(waitList)[0].t)
      ensures Scheduler.Inv(kernel.Core()) && ListOk(kernel.Core(), waitList)
    {
      FirstUnblocked(kernel.Core(), waitList);
      KnownThreads(kernel.Core());
      hide ListOk, Scheduler.Inv, Scheduler.Unblock;
      var t := waitList[0].t;
      waitList := waitList[1..];
      kernel.ThreadUnblock(t);
    }
  }

  lemma InvParts(a: State)
    requires Inv(a)
    ensures Scheduler.Inv(a.core) && ListOk(a.core, a.waiting)
  {
  }

  lemma ReadiedUnrolls(core: Scheduler.State, list: seq<Sleeper>, now: int)
    ensures list != [] && list[0].wake <= now ==>
      Readied(core, list, now) == Readied(Scheduler.Unblock(core, list[0].t), list[1..], now) && Left(list, now) == Left(list[1..], now)
    ensures list == [] || list[0].wake > now ==> Readied(core, list, now) == core && Left(list, now) == list
  {
  }

  lemma KnownThreads(core: Scheduler.State)
    requires Scheduler.Inv(core)
    ensures forall t :: t in core.ready ==> t in core.threads
  {
  }
}
