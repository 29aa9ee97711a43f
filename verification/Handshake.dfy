/** The exec/wait handshake: one semaphore in a child's record tells its parent two things, that the load
    is over and that the child is dead (Original Files/process.c:54-160, 215-232,
    threads/thread.c:189-207). Processes interleave at every step that another could observe. */
module Handshake {
  import opened Machine

  datatype Status = FAIL | RUN | DEAD

  /** `struct process`. */
  datatype Record = Record(status: Status, sema: nat, exit: int)

  /** How far a process has got as a child. */
  datatype Stage =
    | Loading      // in start_process, load not over
    | Alive        // running its program
    | Exiting      // in thread_exit, status not yet settled
    | Leaving      // status settled, parent not yet signalled
    | Gone

  /** What a process is doing as a parent. */
  datatype Call =
    | Rest
    | ExecDown(c: nat)     // process_execute, about to down the semaphore
    | ExecCheck(c: nat)    // past the down
    | WaitDown(c: nat)     // process_wait, about to down the semaphore
    | WaitRead(c: nat)     // past the down

  /** `loads` and `exits` remember how each load ended and what each process passed to `exit`; `parents`
      who created it. A record that has been freed is no longer in `records`. */
  datatype State = State(records: map<nat, Record>, children: map<nat, seq<nat>>, stages: map<nat, Stage>, calls: map<nat, Call>,
                         parents: map<nat, nat>, loads: map<nat, bool>, exits: map<nat, int>)

  datatype Event =
    | Create(p: nat, c: nat)          // process_execute up to and with thread_create
    | TakeLoaded(p: nat)              // its sema_down
    | CheckLoaded(p: nat)             // the rest of it
    | StartWait(p: nat, c: nat)       // process_wait up to its sema_down
    | TakeExited(p: nat)              // its sema_down
    | ReadExit(p: nat)                // the rest of it
    | LoadDone(c: nat, ok: bool)      // the end of start_process
    | CallExit(c: nat, status: int)   // the exit system call
    | Killed(c: nat)                  // thread_exit for any other reason
    | Settle(c: nat)                  // process_exit, its locked section
    | SignalExit(c: nat)              // its sema_up

  function StageOf(st: State, t: nat): Stage {
    if t in st.stages then st.stages[t] else Gone
  }

  function CallOf(st: State, t: nat): Call {
    if t in st.calls then st.calls[t] else Rest
  }

  function ChildrenOf(st: State, t: nat): seq<nat> {
    if t in st.children then st.children[t] else []
  }

  /** What can happen next. No event of a child asks whether the child's record still exists. A process
      exits with no child on its list. */
  predicate Enabled(st: State, e: Event) {
    match e
    case Create(p, c) => StageOf(st, p) == Alive && CallOf(st, p) == Rest && c !in st.stages
    case TakeLoaded(p) => var k := CallOf(st, p); k.ExecDown? && (k.c in st.records ==> st.records[k.c].sema > 0)
    case CheckLoaded(p) => CallOf(st, p).ExecCheck?
    case StartWait(p, c) => StageOf(st, p) == Alive && CallOf(st, p) == Rest
    case TakeExited(p) => var k := CallOf(st, p); k.WaitDown? && (k.c in st.records ==> st.records[k.c].sema > 0)
    case ReadExit(p) => CallOf(st, p).WaitRead?
    case LoadDone(c, ok) => StageOf(st, c) == Loading
    case CallExit(c, status) => StageOf(st, c) == Alive && CallOf(st, c) == Rest
    case Killed(c) => StageOf(st, c) == Alive && CallOf(st, c) == Rest
    case Settle(c) => StageOf(st, c) == Exiting && ChildrenOf(st, c) == []
    case SignalExit(c) => StageOf(st, c) == Leaving
  }

  /** The record that an event reads or writes; none for a process that has no record. */
  function Touches(st: State, e: Event): Option<nat> {
    match e
    case Create(_, _) => None
    case StartWait(_, _) => None
    case TakeLoaded(p) => if CallOf(st, p).ExecDown? then Some(CallOf(st, p).c) else None
    case CheckLoaded(p) => if CallOf(st, p).ExecCheck? then Some(CallOf(st, p).c) else None
    case TakeExited(p) => if CallOf(st, p).WaitDown? then Some(CallOf(st, p).c) else None
    case ReadExit(p) => if CallOf(st, p).WaitRead? then Some(CallOf(st, p).c) else None
    case LoadDone(c, _) => if c in st.parents then Some(c) else None
    case CallExit(c, _) => if c in st.parents then Some(c) else None
    case Killed(c) => None
    case Settle(c) => if c in st.parents then Some(c) else None
    case SignalExit(c) => if c in st.parents then Some(c) else None
  }

  function Without(list: seq<nat>, c: nat): seq<nat> {
    if list == [] then [] else if list[0] == c then list[1..] else [list[0]] + Without(list[1..], c)
  }

  function Freed(st: State, p: nat, c: nat): State {
    st.(records := st.records - {c}, children := st.children[p := Without(ChildrenOf(st, p), c)], calls := st.calls[p := Rest])
  }

  function Put(st: State, c: nat, r: Record): State {
    if c in st.records then st.(records := st.records[c := r]) else st
  }

  function Old(st: State, c: nat): Record {
    if c in st.records then st.records[c] else Record(RUN, 0, -1)
  }

  function Upped(r: Record): Record {
    r.(sema := r.sema + 1)
  }

  function Downed(r: Record): Record {
    if r.sema > 0 then r.(sema := r.sema - 1) else r
  }

  function Step(st: State, e: Event): State
    requires Enabled(st, e)
  {
    match e
    case Create(p, c) =>
      st.(records := st.records[c := Record(RUN, 0, -1)], children := st.children[p := ChildrenOf(st, p) + [c]],
          stages := st.stages[c := Loading], calls := st.calls[p := ExecDown(c)], parents := st.parents[c := p])
    case TakeLoaded(p) =>
      var c := CallOf(st, p).c;
      Put(st, c, Downed(Old(st, c))).(calls := st.calls[p := ExecCheck(c)])
    case CheckLoaded(p) =>
      var c := CallOf(st, p).c;
      if Old(st, c).status == FAIL then Freed(st, p, c) else st.(calls := st.calls[p := Rest])
    case StartWait(p, c) => if c in ChildrenOf(st, p) then st.(calls := st.calls[p := WaitDown(c)]) else st
    case TakeExited(p) =>
      var c := CallOf(st, p).c;
      Put(st, c, Downed(Old(st, c))).(calls := st.calls[p := WaitRead(c)])
    case ReadExit(p) => Freed(st, p, CallOf(st, p).c)
    case LoadDone(c, ok) =>
      Put(st, c, if ok then Upped(Old(st, c)) else Old(st, c).(status := FAIL)).(
        stages := st.stages[c := if ok then Alive else Exiting], loads := st.loads[c := ok])
    case CallExit(c, status) =>
      Put(st, c, Old(st, c).(exit := status)).(stages := st.stages[c := Exiting], exits := st.exits[c := status])
    case Killed(c) => st.(stages := st.stages[c := Exiting])
    case Settle(c) =>
      Put(st, c, if Old(st, c).status == RUN then Old(st, c).(status := DEAD) else Old(st, c)).(stages := st.stages[c := Leaving])
    case SignalExit(c) => Put(st, c, Upped(Old(st, c))).(stages := st.stages[c := Gone])
  }

  /** What the event gives back to its caller, if it ends a call: a process id or -1 from
      `process_execute`, an exit status from `process_wait`. */
  function Returns(st: State, e: Event): Option<int>
    requires Enabled(st, e)
  {
    match e
    case CheckLoaded(p) => Some(if Old(st, CallOf(st, p).c).status == FAIL then -1 else CallOf(st, p).c)
    case StartWait(p, c) => if c in ChildrenOf(st, p) then None else Some(-1)
    case ReadExit(p) => Some(Old(st, CallOf(st, p).c).exit)
    case _ => None
  }

  // ---------------------------------------------------------------- what every step keeps

  /** How often the child has upped its semaphore. */
  function Ups(st: State, c: nat): nat {
    (if c in st.loads && st.loads[c] then 1 else 0) + (if StageOf(st, c) == Gone then 1 else 0)
  }

  /** How often its parent has downed it. */
  function Downs(st: State, c: nat): nat
    requires c in st.parents
  {
    var k := CallOf(st, st.parents[c]);
    if k == ExecDown(c) then 0 else if k == WaitRead(c) then 2 else 1
  }

  predicate NoDuplicates(list: seq<nat>) {
    forall i, j :: 0 <= i < j < |list| ==> list[i] != list[j]
  }

  /** The semaphore holds the signals sent and not yet taken, and the record tells the child's story. */
  predicate RecordOk(st: State, c: nat)
    requires c in st.records && c in st.parents
  {
    var r := st.records[c];
    && r.sema + Downs(st, c) == Ups(st, c)
    && (r.status == FAIL <==> c in st.loads && !st.loads[c])
    && (r.status == FAIL ==> CallOf(st, st.parents[c]) == ExecDown(c) || CallOf(st, st.parents[c]) == ExecCheck(c))
    && (r.status == DEAD <==> (StageOf(st, c).Leaving? || StageOf(st, c).Gone?) && c in st.loads && st.loads[c])
    && (StageOf(st, c).Loading? <==> c !in st.loads)
    && (StageOf(st, c).Alive? ==> c in st.loads && st.loads[c] && c !in st.exits)
    && r.exit == (if c in st.exits then st.exits[c] else -1)
    && (c in st.exits ==> c in st.loads && st.loads[c])
    && c in ChildrenOf(st, st.parents[c])
  }

  /** A record is freed only once its child is gone for good. */
  predicate ChildOk(st: State, c: nat)
    requires c in st.parents
  {
    && c in st.stages && st.parents[c] in st.stages
    && (c !in st.records ==> StageOf(st, c) == Gone)
    && (c in st.records ==> RecordOk(st, c))
  }

  /** A parent's list is its live records, and the child it waits for is on it. */
  predicate ParentOk(st: State, p: nat) {
    && NoDuplicates(ChildrenOf(st, p))
    && (forall c :: c in ChildrenOf(st, p) ==> c in st.records && c in st.parents && st.parents[c] == p)
    && (var k := CallOf(st, p); !k.Rest? ==> k.c in ChildrenOf(st, p) && StageOf(st, p) == Alive)
  }

  predicate ChildrenOk(st: State) {
    forall c :: c in st.parents ==> ChildOk(st, c)
  }

  predicate ParentsOk(st: State) {
    forall p :: p in st.stages ==> ParentOk(st, p)
  }

  predicate KeysOk(st: State) {
    && (forall c :: c in st.records ==> c in st.parents)
    && (forall p :: p in st.children ==> p in st.stages)
    && (forall p :: p in st.calls ==> p in st.stages)
    && (forall c :: c in st.loads ==> c in st.stages) && (forall c :: c in st.exits ==> c in st.stages)
  }

  predicate Inv(st: State) {
    KeysOk(st) && ChildrenOk(st) && ParentsOk(st)
  }

  lemma {:induction false} WithoutMembers(list: seq<nat>, c: nat)
    requires NoDuplicates(list)
    ensures NoDuplicates(Without(list, c)) && forall x :: x in Without(list, c) <==> x in list && x != c
  {
    if list != [] {
      var rest := list[1..];
      assert list == [list[0]] + rest && NoDuplicates(rest) && list[0] !in rest;
      if list[0] != c {
        WithoutMembers(rest, c);
        var w := Without(rest, c);
        assert Without(list, c) == [list[0]] + w && list[0] !in w;
      }
    }
  }

  /** Nothing that concerns this child changes. */
  predicate SameChild(a: State, b: State, d: nat) {
    && d in a.parents && d in b.parents && b.parents[d] == a.parents[d]
    && (d in b.records <==> d in a.records) && (d in a.records ==> b.records[d] == a.records[d])
    && d in b.stages && StageOf(b, d) == StageOf(a, d) && a.parents[d] in b.stages
    && (d in b.loads <==> d in a.loads) && (d in a.loads ==> b.loads[d] == a.loads[d])
    && (d in b.exits <==> d in a.exits) && (d in a.exits ==> b.exits[d] == a.exits[d])
    && (d in ChildrenOf(a, a.parents[d]) ==> d in ChildrenOf(b, a.parents[d]))
    && (CallOf(b, a.parents[d]) == CallOf(a, a.parents[d]) || (!Concerns(CallOf(a, a.parents[d]), d) && !Concerns(CallOf(b, a.parents[d]), d)))
  }

  /** A call in which the parent has downed its child's semaphore more or less than once. */
  predicate Concerns(k: Call, d: nat) {
    k == ExecDown(d) || k == ExecCheck(d) || k == WaitRead(d)
  }

  lemma ChildSame(a: State, b: State, d: nat)
    requires d in a.parents && ChildOk(a, d) && SameChild(a, b, d)
    ensures ChildOk(b, d)
  {
  }

  /** Nothing that concerns this parent changes. */
  predicate SameParent(a: State, b: State, q: nat) {
    && ChildrenOf(b, q) == ChildrenOf(a, q) && CallOf(b, q) == CallOf(a, q)
    && (StageOf(b, q) == StageOf(a, q) || CallOf(a, q).Rest?)
    && (forall c :: c in ChildrenOf(a, q) && c in a.records ==> c in b.records)
    && (forall c :: c in a.parents ==> c in b.parents && b.parents[c] == a.parents[c])
  }

  lemma ParentSame(a: State, b: State, q: nat)
    requires ParentOk(a, q) && SameParent(a, b, q)
    ensures ParentOk(b, q)
  {
    hide NoDuplicates, ChildrenOf, CallOf, StageOf;
  }

  lemma ChildIs(st: State, c: nat)
    requires Inv(st) && c in st.parents
    ensures ChildOk(st, c)
  {
    hide ChildOk, ParentOk;
  }

  lemma ParentIs(st: State, p: nat)
    requires Inv(st) && p in st.stages
    ensures ParentOk(st, p)
  {
    hide ChildOk, ParentOk;
  }

  // ---------------------------------------------------------------- freeing

  lemma FreedChild(st: State, p: nat, c: nat, d: nat)
    requires c in st.records && c in st.parents && st.parents[c] == p && p in st.stages && StageOf(st, c) == Gone
    requires CallOf(st, p) == ExecCheck(c) || CallOf(st, p) == WaitRead(c)
    requires d in st.parents && ChildOk(st, d) && ParentOk(st, p)
    ensures ChildOk(Freed(st, p, c), d)
  {
    WithoutMembers(ChildrenOf(st, p), c);
    if d != c {
      hide NoDuplicates, Without;
      assert SameChild(st, Freed(st, p, c), d);
      hide ChildOk;
      ChildSame(st, Freed(st, p, c), d);
    }
  }

  lemma FreedParent(st: State, p: nat, c: nat, q: nat)
    requires c in st.records && c in st.parents && st.parents[c] == p && p in st.stages
    requires ParentOk(st, p) && ParentOk(st, q)
    ensures ParentOk(Freed(st, p, c), q)
  {
    WithoutMembers(ChildrenOf(st, p), c);
    hide NoDuplicates, Without;
    if q != p {
      assert c !in ChildrenOf(st, q);
      assert SameParent(st, Freed(st, p, c), q);
      hide ParentOk;
      ParentSame(st, Freed(st, p, c), q);
    }
  }

  /** A record is freed only when its child is gone. */
  lemma FreedKeeps(st: State, p: nat, c: nat)
    requires Inv(st) && c in st.records && c in st.parents && st.parents[c] == p && p in st.stages
    requires StageOf(st, c) == Gone
    requires CallOf(st, p) == ExecCheck(c) || CallOf(st, p) == WaitRead(c)
    ensures Inv(Freed(st, p, c))
  {
    hide ChildOk, ParentOk, Without;
    var r := Freed(st, p, c);
    ParentIs(st, p);
    forall d | d in r.parents ensures ChildOk(r, d) {
      FreedChild(st, p, c, d);
    }
    forall q | q in r.stages ensures ParentOk(r, q) {
      FreedParent(st, p, c, q);
    }
  }

  // ---------------------------------------------------------------- a parent's steps

  lemma CreateKeeps(st: State, p: nat, c: nat)
    requires Inv(st) && Enabled(st, Create(p, c))
    ensures Inv(Step(st, Create(p, c)))
  {
    hide ChildOk, ParentOk;
    var r := Step(st, Create(p, c));
    CreateFresh(st, p, c);
    ParentIs(st, p);
    forall d | d in r.parents ensures ChildOk(r, d) {
      CreateChild(st, p, c, d);
    }
    forall q | q in r.stages ensures ParentOk(r, q) {
      CreateParent(st, p, c, q);
    }
  }

  lemma CreateFresh(st: State, p: nat, c: nat)
    requires Inv(st) && Enabled(st, Create(p, c))
    ensures p in st.stages && c !in st.parents && c !in st.records && c !in st.loads && c !in st.exits
    ensures c !in st.calls && c !in st.children
  {
    assert c in st.parents ==> ChildOk(st, c);
    hide ChildrenOk, ParentsOk;
  }

  lemma CreateChild(st: State, p: nat, c: nat, d: nat)
    requires Enabled(st, Create(p, c)) && p in st.stages && c !in st.parents && c !in st.loads && c !in st.exits
    requires d == c || (d in st.parents && ChildOk(st, d))
    ensures ChildOk(Step(st, Create(p, c)), d)
  {
    if d != c {
      var r := Step(st, Create(p, c));
      assert SameChild(st, r, d);
      hide ChildOk, Step, Enabled;
      ChildSame(st, r, d);
    }
  }

  lemma CreateParent(st: State, p: nat, c: nat, q: nat)
    requires Enabled(st, Create(p, c)) && p in st.stages && c !in st.parents && c !in st.records && c !in st.calls
    requires c !in st.children
    requires q == c || ParentOk(st, q)
    ensures ParentOk(Step(st, Create(p, c)), q)
  {
    if q != c && q != p {
      var r := Step(st, Create(p, c));
      assert SameParent(st, r, q);
      hide ParentOk, Step, Enabled;
      ParentSame(st, r, q);
    }
  }

  /** What a parent in the middle of a call knows of its child. */
  lemma CallKnows(st: State, p: nat)
    requires Inv(st) && !CallOf(st, p).Rest?
    ensures var c := CallOf(st, p).c;
      && p in st.stages && StageOf(st, p) == Alive && c in st.records && c in st.parents && st.parents[c] == p
      && c in ChildrenOf(st, p) && RecordOk(st, c)
    ensures var c := CallOf(st, p).c; CallOf(st, p).ExecCheck? && st.records[c].status == FAIL ==> StageOf(st, c) == Gone
    ensures var c := CallOf(st, p).c; CallOf(st, p).WaitRead? ==> StageOf(st, c) == Gone && c in st.loads && st.loads[c]
  {
    assert p in st.calls && p in st.stages;
    hide ChildrenOk, ParentsOk;
    ParentIs(st, p);
    ChildIs(st, CallOf(st, p).c);
  }

  /** The state after a call has moved on and perhaps changed the record of its child. */
  function Moved(st: State, p: nat, next: Call, c: nat, rec: Record): State {
    st.(records := st.records[c := rec], calls := st.calls[p := next])
  }

  lemma MovesChild(st: State, p: nat, next: Call, c: nat, rec: Record, d: nat)
    requires p in st.stages && c in st.records && c in st.parents && st.parents[c] == p && d in st.parents
    requires ChildOk(st, d)
    requires (CallOf(st, p).Rest? || CallOf(st, p).c == c) && (next.Rest? || next.c == c)
    requires RecordOk(Moved(st, p, next, c, rec), c)
    ensures ChildOk(Moved(st, p, next, c, rec), d)
  {
    if d != c {
      var r := Moved(st, p, next, c, rec);
      assert SameChild(st, r, d);
      hide ChildOk, RecordOk, Moved;
      ChildSame(st, r, d);
    }
  }

  lemma MovesParent(st: State, p: nat, next: Call, c: nat, rec: Record, q: nat)
    requires StageOf(st, p) == Alive && c in st.records && c in ChildrenOf(st, p) && ParentOk(st, q)
    requires next.Rest? || next.c == c
    ensures ParentOk(Moved(st, p, next, c, rec), q)
  {
    if q != p {
      var r := Moved(st, p, next, c, rec);
      assert SameParent(st, r, q);
      hide ParentOk, Moved;
      ParentSame(st, r, q);
    } else {
      hide NoDuplicates;
    }
  }

  lemma CallMoves(st: State, p: nat, next: Call, c: nat, rec: Record)
    requires Inv(st) && StageOf(st, p) == Alive && p in st.stages && c in st.records && c in st.parents
    requires st.parents[c] == p
    requires c in ChildrenOf(st, p)
    requires (CallOf(st, p).Rest? || CallOf(st, p).c == c) && (next.Rest? || next.c == c)
    requires RecordOk(Moved(st, p, next, c, rec), c)
    ensures Inv(Moved(st, p, next, c, rec))
  {
    hide ChildOk, ParentOk, RecordOk;
    var r := Moved(st, p, next, c, rec);
    forall d | d in r.parents ensures ChildOk(r, d) {
      MovesChild(st, p, next, c, rec, d);
    }
    forall q | q in r.stages ensures ParentOk(r, q) {
      MovesParent(st, p, next, c, rec, q);
    }
  }

  lemma TakesKeeps(st: State, e: Event)
    requires Inv(st) && Enabled(st, e) && (e.TakeLoaded? || e.TakeExited?)
    ensures Inv(Step(st, e))
  {
    hide Inv, RecordOk;
    var p := e.p;
    var c := CallOf(st, p).c;
    CallKnows(st, p);
    var next := if e.TakeLoaded? then ExecCheck(c) else WaitRead(c);
    var rec := Downed(st.records[c]);
    TakenRecord(st, p, next, c);
    assert Step(st, e) == Moved(st, p, next, c, rec);
    CallMoves(st, p, next, c, rec);
  }

  lemma TakenRecord(st: State, p: nat, next: Call, c: nat)
    requires c in st.records && c in st.parents && st.parents[c] == p && RecordOk(st, c) && st.records[c].sema > 0
    requires (CallOf(st, p) == ExecDown(c) && next == ExecCheck(c)) || (CallOf(st, p) == WaitDown(c) && next == WaitRead(c))
    ensures RecordOk(Moved(st, p, next, c, Downed(st.records[c])), c)
  {
  }

  lemma CheckLoadedKeeps(st: State, p: nat)
    requires Inv(st) && Enabled(st, CheckLoaded(p))
    ensures Inv(Step(st, CheckLoaded(p)))
  {
    hide Inv, RecordOk;
    var c := CallOf(st, p).c;
    CallKnows(st, p);
    if st.records[c].status == FAIL {
      FreedKeeps(st, p, c);
    } else {
      assert Step(st, CheckLoaded(p)) == Moved(st, p, Rest, c, st.records[c]) by {
        assert st.records[c := st.records[c]] == st.records;
      }
      UntakenRecord(st, p, Rest, c);
      CallMoves(st, p, Rest, c, st.records[c]);
    }
  }

  lemma UntakenRecord(st: State, p: nat, next: Call, c: nat)
    requires c in st.records && c in st.parents && st.parents[c] == p && RecordOk(st, c) && st.records[c].status != FAIL
    requires (CallOf(st, p) == ExecCheck(c) && next == Rest) || (CallOf(st, p) == Rest && next == WaitDown(c))
    ensures RecordOk(Moved(st, p, next, c, st.records[c]), c)
  {
  }

  lemma ReadExitKeeps(st: State, p: nat)
    requires Inv(st) && Enabled(st, ReadExit(p))
    ensures Inv(Step(st, ReadExit(p)))
  {
    hide Inv, RecordOk;
    CallKnows(st, p);
    FreedKeeps(st, p, CallOf(st, p).c);
  }

  lemma StartWaitKeeps(st: State, p: nat, c: nat)
    requires Inv(st) && Enabled(st, StartWait(p, c))
    ensures Inv(Step(st, StartWait(p, c)))
  {
    hide ChildrenOk, ParentsOk;
    if c in ChildrenOf(st, p) {
      assert p in st.stages;
      ParentIs(st, p);
      ChildIs(st, c);
      assert Step(st, StartWait(p, c)) == Moved(st, p, WaitDown(c), c, st.records[c]) by {
        assert st.records[c := st.records[c]] == st.records;
      }
      UntakenRecord(st, p, WaitDown(c), c);
      CallMoves(st, p, WaitDown(c), c, st.records[c]);
    }
  }

  // ---------------------------------------------------------------- a child's steps

  predicate ByChild(e: Event, c: nat) {
    e == LoadDone(c, true) || e == LoadDone(c, false) || (e.CallExit? && e.c == c) || e == Killed(c) || e == Settle(c) || e == SignalExit(c)
  }

  /** The state after a child has moved to a stage, with what it left in its record and in history. */
  function Told(st: State, c: nat, stage: Stage, rec: Record, loads: map<nat, bool>, exits: map<nat, int>): State {
    Put(st, c, rec).(stages := st.stages[c := stage], loads := loads, exits := exits)
  }

  ghost predicate OnlyAbout(st: State, c: nat, loads: map<nat, bool>, exits: map<nat, int>) {
    && (forall d :: d != c ==> (d in loads <==> d in st.loads) && (d in st.loads ==> d in loads && loads[d] == st.loads[d]))
    && (forall d :: d != c ==> (d in exits <==> d in st.exits) && (d in st.exits ==> d in exits && exits[d] == st.exits[d]))
  }

  lemma ToldChild(st: State, c: nat, stage: Stage, rec: Record, loads: map<nat, bool>, exits: map<nat, int>, d: nat)
    requires d in st.parents && ChildOk(st, d) && d != c && OnlyAbout(st, c, loads, exits)
    ensures ChildOk(Told(st, c, stage, rec, loads, exits), d)
  {
    var r := Told(st, c, stage, rec, loads, exits);
    assert d in st.stages && st.parents[d] in st.stages;
    hide ChildOk;
    assert CallOf(r, st.parents[d]) == CallOf(st, st.parents[d]) && ChildrenOf(r, st.parents[d]) == ChildrenOf(st, st.parents[d]);
    hide CallOf, ChildrenOf, Concerns;
    assert SameChild(st, r, d);
    hide Told, SameChild;
    ChildSame(st, r, d);
  }

  lemma ToldParent(st: State, c: nat, stage: Stage, rec: Record, loads: map<nat, bool>, exits: map<nat, int>, q: nat)
    requires ParentOk(st, q) && (StageOf(st, c) == Alive ==> stage == Alive || CallOf(st, c) == Rest)
    ensures ParentOk(Told(st, c, stage, rec, loads, exits), q)
  {
    var r := Told(st, c, stage, rec, loads, exits);
    hide NoDuplicates;
    assert q == c ==> CallOf(st, q).Rest? || stage == StageOf(st, c);
    assert SameParent(st, r, q);
    hide ParentOk, Told;
    ParentSame(st, r, q);
  }

  /** The child's own record after its step tells the truth about it. */
  lemma ToldSelf(st: State, e: Event, c: nat)
    requires Enabled(st, e) && ByChild(e, c) && c in st.parents && ChildOk(st, c)
    ensures ChildOk(Step(st, e), c)
  {
    match e
    case LoadDone(_, _) =>
    case CallExit(_, _) =>
    case Killed(_) =>
    case Settle(_) =>
    case SignalExit(_) =>
    case _ =>
  }

  lemma ChildStepIs(st: State, e: Event, c: nat) returns (stage: Stage, rec: Record, loads: map<nat, bool>, exits: map<nat, int>)
    requires Enabled(st, e) && ByChild(e, c)
    ensures Step(st, e) == Told(st, c, stage, rec, loads, exits) && OnlyAbout(st, c, loads, exits) && c in st.stages
    ensures StageOf(st, c) == Alive ==> stage == Alive || CallOf(st, c) == Rest
    ensures (forall d :: d in loads ==> d in st.loads || d == c) && (forall d :: d in exits ==> d in st.exits || d == c)
  {
    loads, exits := st.loads, st.exits;
    match e
    case LoadDone(_, ok) =>
      stage, rec, loads := if ok then Alive else Exiting, if ok then Upped(Old(st, c)) else Old(st, c).(status := FAIL), loads[c := ok];
    case CallExit(_, status) =>
      stage, rec, exits := Exiting, Old(st, c).(exit := status), exits[c := status];
    case Killed(_) =>
      stage, rec := Exiting, Old(st, c);
      assert c in st.records ==> st.records[c := rec] == st.records;
    case Settle(_) =>
      stage, rec := Leaving, if Old(st, c).status == RUN then Old(st, c).(status := DEAD) else Old(st, c);
    case SignalExit(_) =>
      stage, rec := Gone, Upped(Old(st, c));
    case _ =>
  }

  /** A child moves on: it changes its own record and nobody else's business. */
  lemma ChildKeeps(st: State, e: Event, c: nat)
    requires Inv(st) && Enabled(st, e) && ByChild(e, c)
    ensures Inv(Step(st, e))
  {
    hide ChildOk, ParentOk, Step, Enabled, ByChild;
    var stage, rec, loads, exits := ChildStepIs(st, e, c);
    var r := Step(st, e);
    forall d | d in r.parents ensures ChildOk(r, d) {
      if d == c {
        ToldSelf(st, e, c);
      } else {
        ToldChild(st, c, stage, rec, loads, exits, d);
      }
    }
    forall q | q in r.stages ensures ParentOk(r, q) {
      ToldParent(st, c, stage, rec, loads, exits, q);
    }
  }

  lemma StepKeeps(st: State, e: Event)
    requires Inv(st) && Enabled(st, e)
    ensures Inv(Step(st, e))
  {
    hide Inv, Step, Enabled;
    match e
    case Create(p, c) => CreateKeeps(st, p, c);
    case TakeLoaded(_) => TakesKeeps(st, e);
    case TakeExited(_) => TakesKeeps(st, e);
    case CheckLoaded(p) => CheckLoadedKeeps(st, p);
    case StartWait(p, c) => StartWaitKeeps(st, p, c);
    case ReadExit(p) => ReadExitKeeps(st, p);
    case LoadDone(c, _) => ChildKeeps(st, e, c);
    case CallExit(c, _) => ChildKeeps(st, e, c);
    case Killed(c) => ChildKeeps(st, e, c);
    case Settle(c) => ChildKeeps(st, e, c);
    case SignalExit(c) => ChildKeeps(st, e, c);
  }

  // ---------------------------------------------------------------- runs

  /** One process, with no parent, running. */
  function Boot(main: nat): State {
    State(map[], map[], map[main := Alive], map[], map[], map[], map[])
  }

  predicate Possible(st: State, evs: seq<Event>)
    decreases |evs|
  {
    evs == [] || (Enabled(st, evs[0]) && Possible(Step(st, evs[0]), evs[1..]))
  }

  function Run(st: State, evs: seq<Event>): State
    requires Possible(st, evs)
    decreases |evs|
  {
    if evs == [] then st else Run(Step(st, evs[0]), evs[1..])
  }

  lemma {:induction false} RunKeeps(st: State, evs: seq<Event>)
    requires Inv(st) && Possible(st, evs)
    ensures Inv(Run(st, evs))
    decreases |evs|
  {
    if evs != [] {
      StepKeeps(st, evs[0]);
      hide Inv, Step, Enabled;
      RunKeeps(Step(st, evs[0]), evs[1..]);
    }
  }

  lemma BootOk(main: nat)
    ensures Inv(Boot(main))
  {
    assert ParentOk(Boot(main), main);
  }

  /** `process_execute` gives back the child exactly when its load succeeded, and -1 exactly when it failed. */
  lemma ExecReportsLoad(st: State, evs: seq<Event>, p: nat)
    requires Inv(st) && Possible(st, evs) && Enabled(Run(st, evs), CheckLoaded(p))
    ensures var r := Run(st, evs); var c := CallOf(r, p).c;
      && c in r.loads && Returns(r, CheckLoaded(p)) == Some(if r.loads[c] then c else -1)
      && (!r.loads[c] ==> StageOf(r, c) == Gone)
  {
    hide Possible, Run, ChildrenOk, ParentsOk, KeysOk, Step;
    RunKeeps(st, evs);
    CallKnows(Run(st, evs), p);
  }

  /** `process_wait` gives back what the child passed to `exit`, or -1 if it passed nothing, and does so
      only when the child is gone. */
  lemma WaitReturnsStatus(st: State, evs: seq<Event>, p: nat)
    requires Inv(st) && Possible(st, evs) && Enabled(Run(st, evs), ReadExit(p))
    ensures var r := Run(st, evs); var c := CallOf(r, p).c;
      && StageOf(r, c) == Gone && c in r.loads && r.loads[c]
      && Returns(r, ReadExit(p)) == Some(if c in r.exits then r.exits[c] else -1)
  {
    hide Possible, Run, ChildrenOk, ParentsOk, KeysOk, Step;
    RunKeeps(st, evs);
    CallKnows(Run(st, evs), p);
  }

  /** An event changes, frees or makes no record but the one it touches or creates. */
  lemma OnlyTouched(st: State, e: Event, c: nat)
    requires Inv(st) && Enabled(st, e) && Touches(st, e) != Some(c) && !(e.Create? && e.c == c)
    ensures c in Step(st, e).records <==> c in st.records
    ensures c in st.records ==> Step(st, e).records[c] == st.records[c]
  {
    hide Step, Enabled, Touches, Inv;
    ParentKnown(st, c);
    match e
    case LoadDone(_, _) => OthersRecord(st, e, c);
    case CallExit(_, _) => OthersRecord(st, e, c);
    case Killed(_) => NoRecord(st, e, c);
    case Settle(_) => OthersRecord(st, e, c);
    case SignalExit(_) => OthersRecord(st, e, c);
    case TakeLoaded(_) => NotTaken(st, e, c);
    case TakeExited(_) => NotTaken(st, e, c);
    case _ => NotFreed(st, e, c);
  }

  lemma OthersRecord(st: State, e: Event, c: nat)
    requires Enabled(st, e) && Touches(st, e) != Some(c) && (c in st.records ==> c in st.parents)
    requires e.LoadDone? || e.CallExit? || e.Settle? || e.SignalExit?
    ensures c in Step(st, e).records <==> c in st.records
    ensures c in st.records ==> Step(st, e).records[c] == st.records[c]
  {
    hide Step, Enabled;
    var stage, rec, loads, exits := ChildStepIs(st, e, e.c);
    assert e.c == c ==> c !in st.records;
    hide OnlyAbout, Touches;
  }

  lemma NoRecord(st: State, e: Event, c: nat)
    requires e.Killed? && Enabled(st, e)
    ensures Step(st, e).records == st.records
  {
  }

  lemma NotTaken(st: State, e: Event, c: nat)
    requires Enabled(st, e) && Touches(st, e) != Some(c) && (e.TakeLoaded? || e.TakeExited?)
    ensures c in Step(st, e).records <==> c in st.records
    ensures c in st.records ==> Step(st, e).records[c] == st.records[c]
  {
    hide Old, Downed, ChildrenOf, CallOf;
  }

  lemma NotFreed(st: State, e: Event, c: nat)
    requires Enabled(st, e) && Touches(st, e) != Some(c)
    requires e.CheckLoaded? || e.ReadExit? || e.StartWait? || (e.Create? && e.c != c)
    ensures c in Step(st, e).records <==> c in st.records
    ensures c in st.records ==> Step(st, e).records[c] == st.records[c]
  {
    hide Old, Without, ChildrenOf, CallOf, StageOf;
  }

  lemma ParentKnown(st: State, c: nat)
    requires Inv(st)
    ensures c in st.records ==> c in st.parents
  {
    hide ChildrenOk, ParentsOk;
  }

  /** Nobody touches a record that has been freed. */
  lemma NoUseAfterFree(st: State, evs: seq<Event>, e: Event)
    requires Inv(st) && Possible(st, evs) && Enabled(Run(st, evs), e)
    ensures var t := Touches(Run(st, evs), e); t.Some? ==> t.value in Run(st, evs).records
  {
    hide Possible, Run, ChildrenOk, ParentsOk, KeysOk, Step;
    RunKeeps(st, evs);
    var r := Run(st, evs);
    var t := Touches(r, e);
    if t.Some? {
      if e.TakeLoaded? || e.CheckLoaded? || e.TakeExited? || e.ReadExit? {
        CallKnows(r, e.p);
      } else {
        ChildIs(r, t.value);
      }
    }
  }

  /** The two meanings of the one semaphore never get mixed up: a parent in `process_execute` is let
      through exactly when the load has succeeded or the child is gone, a parent in `process_wait` exactly
      when the child is gone. */
  lemma SignalsMeanWhatTheyShould(st: State, evs: seq<Event>, p: nat)
    requires Inv(st) && Possible(st, evs)
    ensures var r := Run(st, evs); var k := CallOf(r, p);
      k.ExecDown? ==> (Enabled(r, TakeLoaded(p)) <==> (k.c in r.loads && r.loads[k.c]) || StageOf(r, k.c) == Gone)
    ensures var r := Run(st, evs); var k := CallOf(r, p);
      k.WaitDown? ==> (Enabled(r, TakeExited(p)) <==> StageOf(r, k.c) == Gone)
  {
    hide Possible, Run, ChildrenOk, ParentsOk, KeysOk, Step;
    RunKeeps(st, evs);
    var r := Run(st, evs);
    if !CallOf(r, p).Rest? {
      CallKnows(r, p);
    }
  }

  /** Whether an event is the end of a wait for `c`. */
  predicate ReadsExitOf(st: State, e: Event, c: nat) {
    e.ReadExit? && CallOf(st, e.p) == WaitRead(c)
  }

  function ReadCount(st: State, evs: seq<Event>, c: nat): nat
    requires Possible(st, evs)
    decreases |evs|
  {
    if evs == [] then 0 else (if ReadsExitOf(st, evs[0], c) then 1 else 0) + ReadCount(Step(st, evs[0]), evs[1..], c)
  }

  /** 1 while a status may still be read, 0 once the record is freed. */
  function Unread(st: State, c: nat): nat {
    if c in st.stages && c !in st.records then 0 else 1
  }

  lemma UnreadAfter(st: State, e: Event, c: nat)
    requires Inv(st) && Enabled(st, e)
    ensures Unread(Step(st, e), c) + (if ReadsExitOf(st, e, c) then 1 else 0) <= Unread(st, c)
  {
    hide ChildrenOk, ParentsOk;
    if e.TakeLoaded? || e.CheckLoaded? || e.TakeExited? || e.ReadExit? {
      CallKnows(st, e.p);
      if e.ReadExit? {
        ChildIs(st, CallOf(st, e.p).c);
      }
    }
    hide RecordOk, KeysOk;
  }

  /** A child's status is read at most once in any run, and never after its record is freed. */
  lemma {:induction false} StatusReadAtMostOnce(st: State, evs: seq<Event>, c: nat)
    requires Inv(st) && Possible(st, evs)
    ensures Unread(Run(st, evs), c) + ReadCount(st, evs, c) <= Unread(st, c) <= 1
    decreases |evs|
  {
    if evs != [] {
      UnreadAfter(st, evs[0], c);
      StepKeeps(st, evs[0]);
      hide Inv, Step, Enabled, Unread, ReadsExitOf;
      StatusReadAtMostOnce(Step(st, evs[0]), evs[1..], c);
    }
  }

  /** Once a record is freed, and for every process that is not its parent, waiting for it returns -1 at
      once. */
  lemma LaterWaitsFail(st: State, evs: seq<Event>, c: nat, q: nat)
    requires Inv(st) && Possible(st, evs) && Enabled(Run(st, evs), StartWait(q, c))
    requires Unread(st, c) == 0 || (c in Run(st, evs).parents && Run(st, evs).parents[c] != q) || c !in Run(st, evs).parents
    ensures Returns(Run(st, evs), StartWait(q, c)) == Some(-1)
    ensures Step(Run(st, evs), StartWait(q, c)) == Run(st, evs)
  {
    hide Possible, Run, ReadCount, ChildrenOk, ParentsOk;
    StatusReadAtMostOnce(st, evs, c);
    RunKeeps(st, evs);
    var r := Run(st, evs);
    ParentIs(r, q);
  }
}
