/** What `process_execute` and `process_wait` return, told by the events of a run alone: who called them for
    whom, how that load ended and what that process passed to `exit`. */
module HandshakeHistory {
  import opened Machine
  import opened Handshake

  lemma Unrolled(st: State, evs: seq<Event>)
    requires Possible(st, evs) && evs != []
    ensures Enabled(st, evs[0]) && Possible(Step(st, evs[0]), evs[1..]) && Run(st, evs) == Run(Step(st, evs[0]), evs[1..])
  {
    hide Enabled, Step;
  }

  // ---------------------------------------------------------------- what a process passed to `exit`

  predicate Exits(e: Event, c: nat) {
    e.CallExit? && e.c == c
  }

  predicate Loads(e: Event, c: nat) {
    e.LoadDone? && e.c == c
  }

  /** The process has left its program for good, and what it passed to `exit` stands. */
  predicate Told(st: State, c: nat, status: int) {
    && c in st.stages && !st.stages[c].Loading? && !st.stages[c].Alive?
    && c in st.exits && st.exits[c] == status
  }

  lemma ToldNow(st: State, c: nat, status: int)
    requires Enabled(st, CallExit(c, status))
    ensures Told(Step(st, CallExit(c, status)), c, status)
  {
  }

  lemma StillTold(st: State, e: Event, c: nat, status: int)
    requires Enabled(st, e) && Told(st, c, status)
    ensures Told(Step(st, e), c, status)
  {
  }

  lemma {:induction false} StaysTold(st: State, evs: seq<Event>, c: nat, status: int)
    requires Possible(st, evs) && Told(st, c, status)
    ensures Told(Run(st, evs), c, status)
    decreases |evs|
  {
    if evs != [] {
      Unrolled(st, evs);
      StillTold(st, evs[0], c, status);
      hide *;
      StaysTold(Step(st, evs[0]), evs[1..], c, status);
    }
  }

  /** What a process passes to `exit` is what its history says ever after. */
  lemma {:induction false} ExitRemembered(st: State, evs: seq<Event>, k: nat, c: nat, status: int)
    requires Possible(st, evs) && k < |evs| && evs[k] == CallExit(c, status)
    ensures Told(Run(st, evs), c, status)
    decreases k
  {
    Unrolled(st, evs);
    if k == 0 {
      ToldNow(st, c, status);
      hide *;
      StaysTold(Step(st, evs[0]), evs[1..], c, status);
    } else {
      hide *;
      assert evs[1..][k - 1] == evs[k];
      ExitRemembered(Step(st, evs[0]), evs[1..], k - 1, c, status);
    }
  }

  lemma OneNotTold(st: State, e: Event, c: nat)
    requires Enabled(st, e) && !Exits(e, c) && c !in st.exits
    ensures c !in Step(st, e).exits
  {
  }

  lemma {:induction false} NeverTold(st: State, evs: seq<Event>, c: nat)
    requires Possible(st, evs) && c !in st.exits && forall k :: 0 <= k < |evs| ==> !Exits(evs[k], c)
    ensures c !in Run(st, evs).exits
    decreases |evs|
  {
    if evs != [] {
      assert !Exits(evs[0], c);
      Unrolled(st, evs);
      OneNotTold(st, evs[0], c);
      hide Step, Enabled, Run, Possible, Exits;
      NeverTold(Step(st, evs[0]), evs[1..], c);
    }
  }

  // ---------------------------------------------------------------- how a load ended

  /** The load is over, and how it ended stands. */
  predicate Settled(st: State, c: nat, ok: bool) {
    c in st.stages && !st.stages[c].Loading? && c in st.loads && st.loads[c] == ok
  }

  lemma SettledNow(st: State, c: nat, ok: bool)
    requires Enabled(st, LoadDone(c, ok))
    ensures Settled(Step(st, LoadDone(c, ok)), c, ok)
  {
  }

  lemma StillSettled(st: State, e: Event, c: nat, ok: bool)
    requires Enabled(st, e) && Settled(st, c, ok)
    ensures Settled(Step(st, e), c, ok)
  {
  }

  lemma {:induction false} StaysSettled(st: State, evs: seq<Event>, c: nat, ok: bool)
    requires Possible(st, evs) && Settled(st, c, ok)
    ensures Settled(Run(st, evs), c, ok)
    decreases |evs|
  {
    if evs != [] {
      Unrolled(st, evs);
      StillSettled(st, evs[0], c, ok);
      hide *;
      StaysSettled(Step(st, evs[0]), evs[1..], c, ok);
    }
  }

  lemma {:induction false} LoadRemembered(st: State, evs: seq<Event>, k: nat, c: nat, ok: bool)
    requires Possible(st, evs) && k < |evs| && evs[k] == LoadDone(c, ok)
    ensures Settled(Run(st, evs), c, ok)
    decreases k
  {
    Unrolled(st, evs);
    if k == 0 {
      SettledNow(st, c, ok);
      hide *;
      StaysSettled(Step(st, evs[0]), evs[1..], c, ok);
    } else {
      hide *;
      assert evs[1..][k - 1] == evs[k];
      LoadRemembered(Step(st, evs[0]), evs[1..], k - 1, c, ok);
    }
  }

  lemma OneNotSettled(st: State, e: Event, c: nat)
    requires Enabled(st, e) && !Loads(e, c) && c !in st.loads
    ensures c !in Step(st, e).loads
  {
  }

  lemma {:induction false} NeverSettled(st: State, evs: seq<Event>, c: nat)
    requires Possible(st, evs) && c !in st.loads && forall k :: 0 <= k < |evs| ==> !Loads(evs[k], c)
    ensures c !in Run(st, evs).loads
    decreases |evs|
  {
    if evs != [] {
      assert !Loads(evs[0], c);
      Unrolled(st, evs);
      OneNotSettled(st, evs[0], c);
      hide Step, Enabled, Run, Possible, Loads;
      NeverSettled(Step(st, evs[0]), evs[1..], c);
    }
  }

  // ---------------------------------------------------------------- for whom a call was made

  /** If `p` is waiting, or executing, then for `c`. */
  predicate WaitsFor(st: State, p: nat, c: nat) {
    CallOf(st, p).WaitDown? || CallOf(st, p).WaitRead? ==> CallOf(st, p).c == c
  }

  predicate ExecutesFor(st: State, p: nat, c: nat) {
    CallOf(st, p).ExecDown? || CallOf(st, p).ExecCheck? ==> CallOf(st, p).c == c
  }

  predicate Starts(e: Event, p: nat) {
    e.StartWait? && e.p == p
  }

  predicate Creates(e: Event, p: nat) {
    e.Create? && e.p == p
  }

  lemma OneWait(st: State, e: Event, p: nat, c: nat)
    requires Enabled(st, e) && (e == StartWait(p, c) || (WaitsFor(st, p, c) && !Starts(e, p)))
    ensures WaitsFor(Step(st, e), p, c)
  {
  }

  lemma OneExecute(st: State, e: Event, p: nat, c: nat)
    requires Enabled(st, e) && (e == Create(p, c) || (ExecutesFor(st, p, c) && !Creates(e, p)))
    ensures ExecutesFor(Step(st, e), p, c)
  {
  }

  lemma {:induction false} StillWaitsFor(st: State, evs: seq<Event>, p: nat, c: nat)
    requires Possible(st, evs) && WaitsFor(st, p, c) && forall k :: 0 <= k < |evs| ==> !Starts(evs[k], p)
    ensures WaitsFor(Run(st, evs), p, c)
    decreases |evs|
  {
    if evs != [] {
      assert !Starts(evs[0], p);
      Unrolled(st, evs);
      OneWait(st, evs[0], p, c);
      hide Step, Enabled, Run, Possible, Starts, WaitsFor;
      StillWaitsFor(Step(st, evs[0]), evs[1..], p, c);
    }
  }

  lemma {:induction false} StillExecutesFor(st: State, evs: seq<Event>, p: nat, c: nat)
    requires Possible(st, evs) && ExecutesFor(st, p, c) && forall k :: 0 <= k < |evs| ==> !Creates(evs[k], p)
    ensures ExecutesFor(Run(st, evs), p, c)
    decreases |evs|
  {
    if evs != [] {
      assert !Creates(evs[0], p);
      Unrolled(st, evs);
      OneExecute(st, evs[0], p, c);
      hide Step, Enabled, Run, Possible, Creates, ExecutesFor;
      StillExecutesFor(Step(st, evs[0]), evs[1..], p, c);
    }
  }

  /** A process waits for the one that its last `wait` named. */
  lemma {:induction false} LastWait(st: State, evs: seq<Event>, j: nat, p: nat, c: nat)
    requires Possible(st, evs) && j < |evs| && evs[j] == StartWait(p, c)
    requires forall k :: j < k < |evs| ==> !Starts(evs[k], p)
    ensures WaitsFor(Run(st, evs), p, c)
    decreases j
  {
    Unrolled(st, evs);
    if j == 0 {
      OneWait(st, evs[0], p, c);
      hide Step, Enabled, Run, Possible, Starts, WaitsFor;
      StillWaitsFor(Step(st, evs[0]), evs[1..], p, c);
    } else {
      hide Step, Enabled, Run, Possible, Starts, WaitsFor;
      assert evs[1..][j - 1] == evs[j];
      LastWait(Step(st, evs[0]), evs[1..], j - 1, p, c);
    }
  }

  /** A process executes the child that it created last. */
  lemma {:induction false} LastCreate(st: State, evs: seq<Event>, j: nat, p: nat, c: nat)
    requires Possible(st, evs) && j < |evs| && evs[j] == Create(p, c)
    requires forall k :: j < k < |evs| ==> !Creates(evs[k], p)
    ensures ExecutesFor(Run(st, evs), p, c)
    decreases j
  {
    Unrolled(st, evs);
    if j == 0 {
      OneExecute(st, evs[0], p, c);
      hide Step, Enabled, Run, Possible, Creates, ExecutesFor;
      StillExecutesFor(Step(st, evs[0]), evs[1..], p, c);
    } else {
      hide Step, Enabled, Run, Possible, Creates, ExecutesFor;
      assert evs[1..][j - 1] == evs[j];
      LastCreate(Step(st, evs[0]), evs[1..], j - 1, p, c);
    }
  }

  // ---------------------------------------------------------------- what the calls return

  /** `process_wait (c)` returns what `c` passed to `exit`, or -1 if it never called it, whatever every other
      process does in between. */
  lemma WaitReturnsWhatWasPassed(st: State, evs: seq<Event>, j: nat, p: nat, c: nat)
    requires Inv(st) && Possible(st, evs) && c !in st.exits
    requires j < |evs| && evs[j] == StartWait(p, c) && forall k :: j < k < |evs| ==> !Starts(evs[k], p)
    requires Enabled(Run(st, evs), ReadExit(p))
    ensures forall k, status :: 0 <= k < |evs| && evs[k] == CallExit(c, status) ==> Returns(Run(st, evs), ReadExit(p)) == Some(status)
    ensures (forall k :: 0 <= k < |evs| ==> !Exits(evs[k], c)) ==> Returns(Run(st, evs), ReadExit(p)) == Some(-1)
  {
    LastWait(st, evs, j, p, c);
    WaitReturnsStatus(st, evs, p);
    var r := Run(st, evs);
    assert CallOf(r, p).c == c;
    hide Possible, Run, Inv, Returns;
    forall k, status | 0 <= k < |evs| && evs[k] == CallExit(c, status) ensures Returns(r, ReadExit(p)) == Some(status) {
      ExitRemembered(st, evs, k, c, status);
    }
    if forall k :: 0 <= k < |evs| ==> !Exits(evs[k], c) {
      NeverTold(st, evs, c);
    }
  }

  /** `process_execute` returns the child it created if the child's load succeeded, and -1 if it failed; it does
      not return before the load is over. */
  lemma ExecReturnsHowItLoaded(st: State, evs: seq<Event>, j: nat, p: nat, c: nat)
    requires Inv(st) && Possible(st, evs) && c !in st.loads
    requires j < |evs| && evs[j] == Create(p, c) && forall k :: j < k < |evs| ==> !Creates(evs[k], p)
    requires Enabled(Run(st, evs), CheckLoaded(p))
    ensures exists k :: 0 <= k < |evs| && Loads(evs[k], c)
    ensures forall k, ok :: 0 <= k < |evs| && evs[k] == LoadDone(c, ok) ==>
      Returns(Run(st, evs), CheckLoaded(p)) == Some(if ok then c else -1)
  {
    LastCreate(st, evs, j, p, c);
    ExecReportsLoad(st, evs, p);
    var r := Run(st, evs);
    assert CallOf(r, p).c == c;
    hide Possible, Run, Inv, Returns;
    if forall k :: 0 <= k < |evs| ==> !Loads(evs[k], c) {
      NeverSettled(st, evs, c);
    }
    forall k, ok | 0 <= k < |evs| && evs[k] == LoadDone(c, ok) ensures Returns(r, CheckLoaded(p)) == Some(if ok then c else -1) {
      LoadRemembered(st, evs, k, c, ok);
    }
  }
}
