/** Process records and the two sides of the handshake performed in place
    (Original Files/process.c:35-160, 215-232). */
module Process {
  import opened Machine
  import opened Handshake

  class Processes {
    var records: map<nat, Record>
    var children: map<nat, seq<nat>>
    var stages: map<nat, Stage>
    var calls: map<nat, Call>
    ghost var parents: map<nat, nat>
    ghost var loads: map<nat, bool>
    ghost var exits: map<nat, int>

    ghost function Now(): State
      reads this
    {
      State(records, children, stages, calls, parents, loads, exits)
    }

    constructor (main: nat)
      ensures Now() == Boot(main) && Inv(Now())
    {
      records, children, stages, calls := map[], map[], map[main := Alive], map[];
      parents, loads, exits := map[], map[], map[];
      new;
      BootOk(main);
    }

    /** `get_child`: from the end of the list to its start. */
    method GetChild(p: nat, pid: nat) returns (found: bool)
      ensures found == (pid in ChildrenOf(Now(), p))
    {
      var list := if p in children then children[p] else [];
      var e := |list|;
      while e > 0
        invariant 0 <= e <= |list| && pid !in list[e..]
      {
        e := e - 1;
        if list[e] == pid {
          return true;
        }
      }
      return false;
    }

    /** `list_remove (&child->elem)`. */
    method Remove(p: nat, c: nat)
      modifies this`children
      ensures children == old(children)[p := Without(ChildrenOf(old(Now()), p), c)]
    {
      var list := if p in children then children[p] else [];
      var e := 0;
      while e < |list| && list[e] != c
        invariant e <= |list| && c !in list[..e]
      {
        e := e + 1;
      }
      WithoutAt(list, c, e);
      children := children[p := if e < |list| then list[..e] + list[e + 1..] else list];
    }

    /** Taking a child off the list and freeing its record, at the end of a call. */
    method Free(p: nat, c: nat)
      modifies this`records, this`children, this`calls
      ensures Now() == Freed(old(Now()), p, c)
    {
      Remove(p, c);
      records := records - {c};
      calls := calls[p := Rest];
    }

    /** `process_execute` after its `sema_down`. */
    method FinishExecute(p: nat) returns (tid: int)
      requires Inv(Now()) && Enabled(Now(), CheckLoaded(p))
      modifies this
      ensures Now() == Step(old(Now()), CheckLoaded(p)) && Inv(Now())
      ensures old(Returns(Now(), CheckLoaded(p))) == Some(tid)
    {
      hide Inv, RecordOk, Without;
      CallKnows(Now(), p);
      CheckLoadedKeeps(Now(), p);
      var c := calls[p].c;
      if records[c].status == FAIL {
        Free(p, c);
        return -1;
      }
      calls := calls[p := Rest];
      return c;
    }

    /** `process_wait` up to its `sema_down`; -1 if there is no such child. */
    method BeginWait(p: nat, pid: nat) returns (ended: bool)
      requires Inv(Now()) && Enabled(Now(), StartWait(p, pid))
      modifies this
      ensures Now() == Step(old(Now()), StartWait(p, pid)) && Inv(Now())
      ensures old(Returns(Now(), StartWait(p, pid))) == if ended then Some(-1) else None
    {
      hide Inv, ChildrenOk, ParentsOk, KeysOk;
      StartWaitKeeps(Now(), p, pid);
      var found := GetChild(p, pid);
      if found {
        calls := calls[p := WaitDown(pid)];
      }
      return !found;
    }

    /** `process_wait` after its `sema_down`. */
    method FinishWait(p: nat) returns (exit: int)
      requires Inv(Now()) && Enabled(Now(), ReadExit(p))
      modifies this
      ensures Now() == Step(old(Now()), ReadExit(p)) && Inv(Now())
      ensures old(Returns(Now(), ReadExit(p))) == Some(exit)
    {
      hide Inv, RecordOk, Without;
      CallKnows(Now(), p);
      ReadExitKeeps(Now(), p);
      var c := calls[p].c;
      exit := records[c].exit;
      Free(p, c);
    }

    /** The end of `start_process`. The record it writes is still there: a success adds one unit to its
        semaphore, a failure marks it failed, and either leaves the rest of it alone. */
    method EndStart(c: nat, success: bool)
      requires Inv(Now()) && Enabled(Now(), LoadDone(c, success)) && c in parents
      modifies this
      ensures Now() == Step(old(Now()), LoadDone(c, success)) && Inv(Now())
      ensures c in old(records) && c in records
      ensures records == old(records)[c :=
        if success then Record(old(records)[c].status, old(records)[c].sema + 1, old(records)[c].exit)
        else Record(FAIL, old(records)[c].sema, old(records)[c].exit)]
      ensures stages == old(stages)[c := if success then Alive else Exiting]
    {
      hide Inv;
      RecordLives(Now(), c);
      ChildKeeps(Now(), LoadDone(c, success), c);
      if success {
        records := records[c := records[c].(sema := records[c].sema + 1)];
        stages := stages[c := Alive];
      } else {
        records := records[c := records[c].(status := FAIL)];
        stages := stages[c := Exiting];
      }
      loads := loads[c := success];
    }

    /** The locked section of `process_exit`. */
    method SettleStatus(c: nat)
      requires Inv(Now()) && Enabled(Now(), Settle(c)) && c in parents
      modifies this
      ensures Now() == Step(old(Now()), Settle(c)) && Inv(Now())
    {
      hide Inv;
      RecordLives(Now(), c);
      ChildKeeps(Now(), Settle(c), c);
      if records[c].status == RUN {
        records := records[c := records[c].(status := DEAD)];
      }
      stages := stages[c := Leaving];
      assert old(Now()).records[c := old(Now()).records[c]] == old(Now()).records;
    }

    /** The `sema_up` that ends `process_exit`. */
    method SignalParent(c: nat)
      requires Inv(Now()) && Enabled(Now(), SignalExit(c)) && c in parents
      modifies this
      ensures Now() == Step(old(Now()), SignalExit(c)) && Inv(Now())
    {
      hide Inv;
      RecordLives(Now(), c);
      ChildKeeps(Now(), SignalExit(c), c);
      records := records[c := records[c].(sema := records[c].sema + 1)];
      stages := stages[c := Gone];
    }
  }

  /** A child that is not gone still has its record. */
  lemma RecordLives(st: State, c: nat)
    requires Inv(st) && c in st.parents && StageOf(st, c) != Gone
    ensures c in st.records
  {
    hide ChildrenOk, ParentsOk;
    ChildIs(st, c);
  }

  lemma {:induction false} WithoutAt(list: seq<nat>, c: nat, e: nat)
    requires e <= |list| && c !in list[..e] && (e < |list| ==> list[e] == c)
    ensures Without(list, c) == if e < |list| then list[..e] + list[e + 1..] else list
  {
    if list != [] && e > 0 {
      var head, rest := list[0], list[1..];
      assert head == list[..e][0];
      assert rest[..e - 1] == list[..e][1..] && list == [head] + rest;
      WithoutAt(rest, c, e - 1);
      assert Without(list, c) == [head] + Without(rest, c);
      hide Without;
      if e < |list| {
        assert [head] + (rest[..e - 1] + rest[e..]) == list[..e] + list[e + 1..];
      }
    }
  }
}
