/** What every step of the scheduler and of the semaphores keeps. */
module SchedulerProofs {
  import opened Machine
  import opened OrderedList
  import opened Scheduler

  // ---------------------------------------------------------------- the ready list

  lemma KeysOfInserted(st: State, list: seq<nat>, at: nat, t: nat)
    requires at <= |list|
    ensures Keys(st, Inserted(list, at, t)) == Inserted(Keys(st, list), at, -PriorityOf(st, t))
  {
  }

  lemma InsertedMembers(list: seq<nat>, at: nat, t: nat)
    requires at <= |list| && NoDuplicates(list) && t !in list
    ensures NoDuplicates(Inserted(list, at, t))
    ensures forall u :: u in Inserted(list, at, t) <==> u in list || u == t
  {
    var r := Inserted(list, at, t);
    assert list == list[..at] + list[at..];
    forall i, j | 0 <= i < j < |r| ensures r[i] != r[j] {
      assert r[i] == if i < at then list[i] else if i == at then t else list[i - 1];
      assert r[j] == if j < at then list[j] else if j == at then t else list[j - 1];
    }
  }

  lemma EnqueuePlace(st: State, t: nat) returns (at: nat)
    ensures at <= |st.ready| && Enqueue(st, t) == Inserted(st.ready, at, t)
    ensures st.policy.Priority? ==> at == Place(Keys(st, st.ready), -PriorityOf(st, t))
  {
    at := if st.policy.Fifo? then |st.ready| else Place(Keys(st, st.ready), -PriorityOf(st, t));
  }

  /** Queueing adds the thread, keeps the list free of duplicates and, by priority, sorted. */
  lemma Enqueued(st: State, t: nat)
    requires NoDuplicates(st.ready) && t !in st.ready
    requires st.policy.Priority? ==> Sorted(Keys(st, st.ready))
    ensures NoDuplicates(Enqueue(st, t))
    ensures forall u :: u in Enqueue(st, t) <==> u in st.ready || u == t
    ensures st.policy.Priority? ==> Sorted(Keys(st, Enqueue(st, t)))
  {
    var keys := Keys(st, st.ready);
    var at := EnqueuePlace(st, t);
    hide *;
    InsertedMembers(st.ready, at, t);
    if st.policy.Priority? {
      KeysOfInserted(st, st.ready, at, t);
      InsertKeepsSorted(keys, -PriorityOf(st, t));
    }
  }

  /** Keys depend on priorities alone. */
  lemma SameKeys(a: State, b: State, list: seq<nat>)
    requires forall t :: t in list ==> PriorityOf(a, t) == PriorityOf(b, t)
    ensures Keys(a, list) == Keys(b, list)
  {
  }

  /** The list without its first thread. */
  lemma Dequeued(st: State)
    requires ReadyOk(st) && st.ready != []
    ensures NoDuplicates(st.ready[1..]) && st.ready[0] !in st.ready[1..]
    ensures forall t :: t in st.ready <==> t == st.ready[0] || t in st.ready[1..]
    ensures st.policy.Priority? ==> Sorted(Keys(st, st.ready[1..]))
  {
    assert Keys(st, st.ready[1..]) == Keys(st, st.ready)[1..];
    assert st.ready == [st.ready[0]] + st.ready[1..];
  }

  // ---------------------------------------------------------------- semaphores under a switch

  predicate InLoop(st: State, t: nat, s: nat) {
    t in st.threads && st.threads[t].want == Some(s) && st.threads[t].status != Blocked
  }

  lemma SameWoken(a: State, b: State, s: nat)
    requires forall t :: InLoop(a, t, s) == InLoop(b, t, s)
    ensures Woken(a, s) == Woken(b, s)
  {
    assert forall t :: t in Woken(a, s) <==> InLoop(a, t, s);
    assert forall t :: t in Woken(b, s) <==> InLoop(b, t, s);
  }

  /** Semaphores look only at who is blocked and at who wants what. */
  lemma SemasKept(a: State, b: State)
    requires SemasOk(a) && b.semas == a.semas && a.threads.Keys <= b.threads.Keys
    requires forall t :: t in a.threads ==> b.threads[t].want == a.threads[t].want
    requires forall t :: t in a.threads && a.threads[t].want.Some? ==>
      ((a.threads[t].status == Blocked) == (b.threads[t].status == Blocked) && b.threads[t].status != Dying)
    requires forall t :: t in b.threads && t !in a.threads ==> b.threads[t].want == None
    ensures SemasOk(b)
  {
    forall s | s in b.semas ensures WaitersOk(b, s) && NoneLost(b, s) {
      assert WaitersOk(a, s) && NoneLost(a, s);
      SameWoken(a, b, s);
      forall t | t in b.threads && Awaits(b, t, s) ensures t in b.semas[s].waiters {
        assert Awaits(a, t, s);
      }
    }
  }

  // ---------------------------------------------------------------- switching

  /** Between a thread's leaving the running state and the choice of the next, nothing runs. */
  predicate Switching(st: State) {
    && st.idle in st.threads && (forall t :: t in st.threads ==> st.threads[t].status != Running)
    && st.threads[st.idle].want == None && st.threads[st.idle].status != Dying
    && ReadyOk(st) && SemasOk(st)
  }

  lemma ScheduleKeepsReady(st: State)
    requires Switching(st)
    ensures ReadyOk(Schedule(st)) && OneRuns(Schedule(st)) && Schedule(st).current == Next(st)
    ensures Next(st) in st.threads && (st.threads[Next(st)].want.Some? ==> st.threads[Next(st)].status != Blocked)
  {
    hide SemasOk, Keys;
    if st.ready != [] {
      Dequeued(st);
      assert st.ready[0] in st.ready;
    }
    SameKeys(st, Schedule(st), Schedule(st).ready);
  }

  lemma ScheduleKeeps(st: State)
    requires Switching(st)
    ensures Inv(Schedule(st)) && Schedule(st).current == Next(st)
  {
    ScheduleKeepsReady(st);
    hide Keys, ReadyOk, SemasOk;
    SemasKept(st, Schedule(st));
  }

  /** The running thread may be given any other status once the ready list agrees. */
  lemma Leaves(st: State, ready: seq<nat>, status: Status)
    requires Inv(st) && status != Running && st.threads[st.current].want == None
    requires status == Dying ==> st.current != st.idle
    requires ready == if status == Ready && st.current != st.idle then Enqueue(st, st.current) else st.ready
    ensures Switching(WithStatus(st.(ready := ready), st.current, status))
  {
    var r := WithStatus(st.(ready := ready), st.current, status);
    assert st.current !in st.ready;
    Enqueued(st, st.current);
    SameKeys(st, r, ready);
    assert SemasOk(r) by {
      hide Keys, ReadyOk, SemasOk, Enqueue;
      SemasKept(st, r);
    }
    hide SemasOk, Keys, Enqueue, Sorted;
  }

  lemma BlockKeeps(st: State)
    requires Inv(st) && st.threads[st.current].want == None
    ensures Inv(Block(st))
  {
    hide Inv, Switching, Schedule;
    Leaves(st, st.ready, Blocked);
    assert st.(ready := st.ready) == st;
    ScheduleKeeps(WithStatus(st, st.current, Blocked));
  }

  lemma ExitKeeps(st: State)
    requires Inv(st) && st.threads[st.current].want == None && st.current != st.idle
    ensures Inv(Exit(st))
  {
    hide Inv, Switching, Schedule;
    Leaves(st, st.ready, Dying);
    assert st.(ready := st.ready) == st;
    ScheduleKeeps(WithStatus(st, st.current, Dying));
  }

  lemma YieldKeeps(st: State)
    requires Inv(st) && st.threads[st.current].want == None
    ensures Inv(Yield(st))
  {
    var ready := if st.current != st.idle then Enqueue(st, st.current) else st.ready;
    hide Inv, Switching, Schedule, Enqueue;
    Leaves(st, ready, Ready);
    assert st.(ready := st.ready) == st;
    ScheduleKeeps(WithStatus(st.(ready := ready), st.current, Ready));
  }

  lemma UnblockKeepsReady(st: State, t: nat)
    requires OneRuns(st) && ReadyOk(st) && t in st.threads && st.threads[t].status == Blocked && t != st.idle
    ensures OneRuns(Unblock(st, t)) && ReadyOk(Unblock(st, t))
  {
    Enqueued(st, t);
    SameKeys(st, Unblock(st, t), Enqueue(st, t));
    hide Enqueue, Keys, Sorted;
  }

  lemma UnblockKeeps(st: State, t: nat)
    requires Inv(st) && t in st.threads && t != st.idle
    requires st.threads[t].status == Blocked && st.threads[t].want == None
    ensures Inv(Unblock(st, t))
  {
    UnblockKeepsReady(st, t);
    hide Enqueue, ReadyOk, SemasOk;
    SemasKept(st, Unblock(st, t));
  }

  lemma SpawnKeeps(st: State, t: nat, priority: int)
    requires Inv(st) && t !in st.threads
    ensures Inv(Spawn(st, t, priority))
  {
    SameKeys(st, Spawn(st, t, priority), st.ready);
    assert SemasOk(Spawn(st, t, priority)) by {
      hide Keys, ReadyOk, SemasOk;
      SemasKept(st, Spawn(st, t, priority));
    }
  }

  /** The running thread is not on the ready list, so its new priority cannot unsort the list. */
  lemma SetPriorityKeeps(st: State, priority: int)
    requires Inv(st)
    ensures Inv(SetPriority(st, priority))
  {
    SameKeys(st, SetPriority(st, priority), st.ready);
    assert SemasOk(SetPriority(st, priority)) by {
      hide Keys, ReadyOk, SemasOk;
      SemasKept(st, SetPriority(st, priority));
    }
  }

  // ---------------------------------------------------------------- semaphores

  lemma SameReady(a: State, b: State)
    requires OneRuns(a) && ReadyOk(a) && b.ready == a.ready && b.policy == a.policy && b.current == a.current
    requires b.idle == a.idle
    requires b.threads.Keys == a.threads.Keys
    requires forall t :: t in a.threads ==> b.threads[t].status == a.threads[t].status && b.threads[t].priority == a.threads[t].priority
    requires b.threads[b.idle].want == None
    ensures OneRuns(b) && ReadyOk(b)
  {
    SameKeys(a, b, a.ready);
    hide Keys, Sorted;
  }

  /** A semaphore whose loop no thread enters or leaves between the two states. */
  lemma OtherSema(a: State, b: State, s: nat)
    requires s in a.semas && s in b.semas && b.semas[s] == a.semas[s] && WaitersOk(a, s) && NoneLost(a, s)
    requires forall t :: Awaits(a, t, s) == Awaits(b, t, s)
    requires forall t :: InLoop(a, t, s) == InLoop(b, t, s)
    ensures WaitersOk(b, s) && NoneLost(b, s)
  {
    SameWoken(a, b, s);
  }

  lemma SemaInitKeeps(st: State, s: nat, value: nat)
    requires Inv(st) && s !in st.semas
    ensures Inv(SemaInit(st, s, value))
  {
    var r := SemaInit(st, s, value);
    SameReady(st, r);
    forall s2 | s2 in r.semas ensures WaitersOk(r, s2) && NoneLost(r, s2) {
      if s2 != s {
        OtherSema(st, r, s2);
      }
    }
  }

  predicate MayDown(st: State, s: nat) {
    && st.current in st.threads && s in st.semas && st.current != st.idle
    && (st.threads[st.current].want == None || st.threads[st.current].want == Some(s))
  }

  lemma WokenLoses(a: State, b: State, s: nat, t: nat)
    requires forall u :: InLoop(b, u, s) == (InLoop(a, u, s) && u != t)
    ensures |Woken(b, s)| + 1 >= |Woken(a, s)| && (!InLoop(a, t, s) ==> |Woken(b, s)| == |Woken(a, s)|)
  {
    assert forall u :: u in Woken(a, s) <==> InLoop(a, u, s);
    assert forall u :: u in Woken(b, s) <==> InLoop(b, u, s);
    assert Woken(b, s) == Woken(a, s) - {t};
  }

  lemma WokenGains(a: State, b: State, s: nat, t: nat)
    requires forall u :: InLoop(b, u, s) == (InLoop(a, u, s) || u == t)
    requires !InLoop(a, t, s)
    ensures |Woken(b, s)| == |Woken(a, s)| + 1
  {
    assert forall u :: u in Woken(a, s) <==> InLoop(a, u, s);
    assert forall u :: u in Woken(b, s) <==> InLoop(b, u, s);
    assert Woken(b, s) == Woken(a, s) + {t};
  }

  /** Taking a unit: a woken thread uses up its own wake-up, any other thread none. */
  lemma TakeKeeps(st: State, s: nat)
    requires Inv(st) && MayDown(st, s) && st.semas[s].value > 0
    ensures Inv(Take(st, s))
  {
    var r := Take(st, s);
    SameReady(st, r);
    forall s2 | s2 in r.semas ensures WaitersOk(r, s2) && NoneLost(r, s2) {
      assert WaitersOk(st, s2) && NoneLost(st, s2);
      assert forall t :: Awaits(st, t, s2) == Awaits(r, t, s2);
      if s2 != s {
        OtherSema(st, r, s2);
      } else {
        WokenLoses(st, r, s, st.current);
      }
    }
  }

  lemma TryDownKeeps(st: State, s: nat)
    requires Inv(st) && s in st.semas
    ensures Inv(TryDown(st, s))
  {
    var r := TryDown(st, s);
    SameReady(st, r);
    forall s2 | s2 in r.semas ensures WaitersOk(r, s2) && NoneLost(r, s2) {
      assert WaitersOk(st, s2) && NoneLost(st, s2);
      SameWoken(st, r, s2);
    }
  }

  /** Queueing in a semaphore leaves the thread ready to be switched away from. */
  lemma WaitSwitches(st: State, s: nat)
    requires Inv(st) && MayDown(st, s) && st.semas[s].value == 0
    ensures Switching(WithStatus(WithWant(WithSema(st, s,
      st.semas[s].(waiters := st.semas[s].waiters + [st.current])), st.current, Some(s)), st.current, Blocked))
  {
    var listed := WithWant(WithSema(st, s, st.semas[s].(waiters := st.semas[s].waiters + [st.current])), st.current, Some(s));
    var r := WithStatus(listed, st.current, Blocked);
    assert ReadyOk(r) by {
      SameKeys(st, r, st.ready);
    }
    WaitListed(st, s, r);
  }

  lemma WaitKeeps(st: State, s: nat)
    requires Inv(st) && MayDown(st, s) && st.semas[s].value == 0
    ensures Inv(Wait(st, s))
  {
    WaitSwitches(st, s);
    var listed := WithWant(WithSema(st, s, st.semas[s].(waiters := st.semas[s].waiters + [st.current])), st.current, Some(s));
    hide Inv, Switching, Schedule;
    ScheduleKeeps(WithStatus(listed, st.current, Blocked));
  }

  lemma WaitListed(st: State, s: nat, r: State)
    requires Inv(st) && MayDown(st, s) && st.semas[s].value == 0
    requires r.semas == st.semas[s := Semaphore(0, st.semas[s].waiters + [st.current])]
    requires r.threads == st.threads[st.current := Thread(Blocked, st.threads[st.current].priority, Some(s))]
    ensures SemasOk(r)
  {
    forall s2 | s2 in r.semas ensures WaitersOk(r, s2) && NoneLost(r, s2) {
      assert WaitersOk(st, s2) && NoneLost(st, s2);
      assert forall t :: Awaits(r, t, s2) == (Awaits(st, t, s2) || (t == st.current && s2 == s));
      if s2 != s {
        OtherSema(st, r, s2);
      }
    }
  }

  lemma UpKeeps(st: State, s: nat)
    requires Inv(st) && s in st.semas
    ensures Inv(Up(st, s))
  {
    hide SemasOk, ReadyOk, OneRuns, Up, Awaits;
    if st.semas[s].waiters == [] {
      UnwaitedReady(st, s);
      UpUnwaited(st, s);
    } else {
      FirstWaits(st, s);
      UpReady(st, s);
      UpWakes(st, s, Up(st, s));
    }
  }

  lemma FirstWaits(st: State, s: nat)
    requires Inv(st) && s in st.semas && st.semas[s].waiters != []
    ensures var w := st.semas[s].waiters[0]; Awaits(st, w, s) && w in st.threads
    ensures Up(st, s).semas == st.semas[s := Semaphore(st.semas[s].value + 1, st.semas[s].waiters[1..])]
    ensures var w := st.semas[s].waiters[0]; Up(st, s).threads == st.threads[w := st.threads[w].(status := Ready)]
  {
    assert WaitersOk(st, s) && st.semas[s].waiters[0] in st.semas[s].waiters;
    hide SemasOk, ReadyOk, Enqueue;
  }

  lemma UnwaitedReady(st: State, s: nat)
    requires Inv(st) && s in st.semas && st.semas[s].waiters == []
    ensures OneRuns(Up(st, s)) && ReadyOk(Up(st, s))
  {
    hide SemasOk, ReadyOk;
    SameReady(st, Up(st, s));
  }

  lemma UpReady(st: State, s: nat)
    requires Inv(st) && s in st.semas && st.semas[s].waiters != [] && Awaits(st, st.semas[s].waiters[0], s)
    ensures OneRuns(Up(st, s)) && ReadyOk(Up(st, s))
  {
    var w := st.semas[s].waiters[0];
    var popped := WithSema(st, s, st.semas[s].(waiters := st.semas[s].waiters[1..]));
    hide SemasOk, ReadyOk, Enqueue;
    SameReady(st, popped);
    UnblockKeepsReady(popped, w);
    SameReady(Unblock(popped, w), Up(st, s));
  }

  lemma UpUnwaited(st: State, s: nat)
    requires Inv(st) && s in st.semas && st.semas[s].waiters == []
    ensures SemasOk(Up(st, s))
  {
    var r := Up(st, s);
    forall s2 | s2 in r.semas ensures WaitersOk(r, s2) && NoneLost(r, s2) {
      assert WaitersOk(st, s2) && NoneLost(st, s2);
      SameWoken(st, r, s2);
    }
  }

  lemma UpWakes(st: State, s: nat, r: State)
    requires Inv(st) && s in st.semas && st.semas[s].waiters != [] && st.semas[s].waiters[0] in st.threads
    requires var w := st.semas[s].waiters[0];
      && r.semas == st.semas[s := Semaphore(st.semas[s].value + 1, st.semas[s].waiters[1..])]
      && r.threads == st.threads[w := st.threads[w].(status := Ready)]
    ensures SemasOk(r)
  {
    var waiters := st.semas[s].waiters;
    var w := waiters[0];
    assert w in waiters && WaitersOk(st, s) && Awaits(st, w, s);
    assert waiters == [w] + waiters[1..];
    forall s2 | s2 in r.semas ensures WaitersOk(r, s2) && NoneLost(r, s2) {
      assert WaitersOk(st, s2) && NoneLost(st, s2);
      assert forall t :: Awaits(r, t, s2) == (Awaits(st, t, s2) && t != w);
      if s2 != s {
        OtherSema(st, r, s2);
      } else {
        WokenGains(st, r, s, w);
      }
    }
  }

  // ---------------------------------------------------------------- every step

  /** One thread runs, the ready list is exactly the ready threads, every blocked waiter is in exactly the
      list that can wake it, and no wake-up is lost: every step keeps all of it. */
  lemma StepKeeps(st: State, e: Event)
    requires Inv(st) && Enabled(st, e)
    ensures Inv(Step(st, e))
  {
    hide Inv, Up, Unblock, Block, Yield, Exit, Wait, Take, TryDown, Spawn, SetPriority, SemaInit;
    match e
    case DoDown(s) =>
      if st.semas[s].value == 0 {
        WaitKeeps(st, s);
      } else {
        TakeKeeps(st, s);
      }
    case DoTryDown(s) => TryDownKeeps(st, s);
    case DoUp(s) => UpKeeps(st, s);
    case DoSemaInit(s, v) => SemaInitKeeps(st, s, v);
    case DoYield => YieldKeeps(st);
    case DoBlock => BlockKeeps(st);
    case DoUnblock(t) => UnblockKeeps(st, t);
    case DoSpawn(t, p) => SpawnKeeps(st, t, p);
    case DoExit => ExitKeeps(st);
    case DoSetPriority(p) => SetPriorityKeeps(st, p);
  }

  lemma {:induction false} RunKeeps(st: State, evs: seq<Event>)
    requires Inv(st) && Possible(st, evs)
    ensures Inv(Run(st, evs))
    decreases |evs|
  {
    if evs != [] {
      StepKeeps(st, evs[0]);
      RunKeeps(Step(st, evs[0]), evs[1..]);
    }
  }
}
