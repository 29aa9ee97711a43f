/** The `while (true)` loop of `evict_frame` (frame.c:103), one trip at a time. */
module EvictionScan {
  import opened PagingSpec

  /** The loop still scanning with the hand on an entry, or stopped on its victim. */
  datatype Scan = At(pd: map<PageId, Pte>, hand: nat) | Hit(pd: map<PageId, Pte>, victim: nat)

  function Next(st: State, hand: nat): nat {
    if hand + 1 == |st.table| then 0 else hand + 1
  }

  /** One trip round the loop. */
  function Trip(st: State, s: Scan): Scan
    requires Valid(st) && s.pd.Keys == st.pd.Keys
    requires s.At? ==> s.hand < |st.table|
  {
    if s.Hit? then s
    else
      var id := st.table[s.hand].id;
      if st.spt[id].pinned then At(s.pd, Next(st, s.hand))
      else if s.pd[id].accessed then At(s.pd[id := s.pd[id].(accessed := false)], Next(st, s.hand))
      else Hit(s.pd, s.hand)
  }

  function Trips(st: State, n: nat): (s: Scan)
    requires Valid(st) && st.table != []
    ensures s.pd.Keys == st.pd.Keys
    ensures s.At? ==> s.hand < |st.table|
  {
    if n == 0 then At(st.pd, 0)
    else
      var s := Trips(st, n - 1);
      assert s.At? ==> st.table[s.hand].id in st.pd;
      Trip(st, s)
  }

  /** How many trips the loop makes before it stops. */
  function TripsNeeded(st: State): nat
    requires Valid(st) && Evictable(st)
  {
    var idle := Search(st, 0, true);
    if idle < |st.table| then idle + 1 else |st.table| + Search(st, 0, false) + 1
  }

  lemma SweptNext(st: State, k: nat)
    requires Valid(st) && k < |st.table|
    ensures var id := st.table[k].id;
      Swept(st, k + 1) == if Unpinned(st, k) then Swept(st, k)[id := Swept(st, k)[id].(accessed := false)] else Swept(st, k)
    ensures st.table[k].id in Swept(st, k) && Swept(st, k)[st.table[k].id].accessed == Accessed(st, k)
  {
    var id := st.table[k].id;
    assert st.table[..k + 1] == st.table[..k] + [st.table[k]];
    forall x ensures x in Ids(st.table[..k + 1]) <==> x in Ids(st.table[..k]) || x == id {
      if x in Ids(st.table[..k]) {
        var i :| 0 <= i < k && st.table[..k][i].id == x;
        assert st.table[..k + 1][i].id == x;
      }
      assert st.table[..k + 1][k].id == id;
      if x in Ids(st.table[..k + 1]) {
        var i :| 0 <= i < k + 1 && st.table[..k + 1][i].id == x;
        assert i < k ==> st.table[..k][i].id == x;
      }
    }
    forall i | 0 <= i < k ensures st.table[..k][i].id != id {
      assert Differ(st.table, i, k);
    }
  }

  /** A trip that passes an entry by. */
  lemma PassedBy(st: State, n: nat, k: nat)
    requires Valid(st) && k < |st.table| && Trips(st, n) == At(Swept(st, k), k)
    requires Unpinned(st, k) ==> Accessed(st, k)
    ensures Trips(st, n + 1) == At(Swept(st, k + 1), if k + 1 == |st.table| then 0 else k + 1)
  {
    SweptNext(st, k);
    hide Valid, Swept;
  }

  lemma NoTrips(st: State)
    requires Valid(st) && st.table != []
    ensures Trips(st, 0) == At(Swept(st, 0), 0) == At(st.pd, 0)
  {
    assert Swept(st, 0) == st.pd;
  }

  /** Before it meets an idle entry the hand only clears accessed bits. */
  lemma {:induction false} FirstPass(st: State, k: nat)
    requires Valid(st) && st.table != [] && k <= Search(st, 0, true)
    ensures Trips(st, k) == At(Swept(st, k), if k == |st.table| then 0 else k)
  {
    hide *;
    if k == 0 {
      NoTrips(st);
    } else {
      FirstPass(st, k - 1);
      assert Unpinned(st, k - 1) ==> Accessed(st, k - 1);
      PassedBy(st, k - 1, k - 1);
    }
  }

  lemma SkippedOver(st: State, n: nat, k: nat, pd: map<PageId, Pte>)
    requires Valid(st) && k + 1 < |st.table| && !Unpinned(st, k) && Trips(st, n) == At(pd, k)
    ensures Trips(st, n + 1) == At(pd, k + 1)
  {
    hide Valid;
  }

  /** Once every unpinned entry's bit is clear, the hand skips pinned entries. */
  lemma {:induction false} SecondPass(st: State, k: nat)
    requires Valid(st) && Evictable(st) && Search(st, 0, true) == |st.table| && k <= Search(st, 0, false) < |st.table|
    ensures Trips(st, |st.table| + k) == At(Swept(st, |st.table|), k)
  {
    hide *;
    if k == 0 {
      FirstPass(st, |st.table|);
    } else {
      SecondPass(st, k - 1);
      assert !Unpinned(st, k - 1);
      SkippedOver(st, |st.table| + k - 1, k - 1, Swept(st, |st.table|));
    }
  }

  lemma Stopped(st: State, n: nat, k: nat, pd: map<PageId, Pte>)
    requires Valid(st) && k < |st.table| && Unpinned(st, k) && Trips(st, n) == At(pd, k)
    requires st.table[k].id in pd && !pd[st.table[k].id].accessed
    ensures Trips(st, n + 1) == Hit(pd, k)
  {
    hide Valid;
  }

  lemma SweptAll(st: State, v: nat)
    requires Valid(st) && v < |st.table| && Unpinned(st, v)
    ensures st.table[v].id in Swept(st, |st.table|) && !Swept(st, |st.table|)[st.table[v].id].accessed
  {
    assert st.table[..|st.table|] == st.table;
    assert st.table[v].id in Ids(st.table);
  }

  lemma StopsOnIdle(st: State)
    requires Valid(st) && Search(st, 0, true) < |st.table|
    ensures Trips(st, Search(st, 0, true) + 1) == Hit(Swept(st, Search(st, 0, true)), Search(st, 0, true))
    ensures forall n :: 0 <= n <= Search(st, 0, true) ==> Trips(st, n).At?
  {
    hide *;
    var v := Search(st, 0, true);
    FirstPass(st, v);
    SweptNext(st, v);
    assert !Accessed(st, v);
    Stopped(st, v, v, Swept(st, v));
    forall n | 0 <= n <= v ensures Trips(st, n).At? {
      FirstPass(st, n);
    }
  }

  lemma StopsOnUnpinned(st: State)
    requires Valid(st) && Evictable(st) && Search(st, 0, true) == |st.table| > Search(st, 0, false)
    ensures var v := Search(st, 0, false);
      && Trips(st, |st.table| + v + 1) == Hit(Swept(st, |st.table|), v)
      && forall n :: 0 <= n <= |st.table| + v ==> Trips(st, n).At?
  {
    hide *;
    var v := Search(st, 0, false);
    SecondPass(st, v);
    SweptAll(st, v);
    Stopped(st, |st.table| + v, v, Swept(st, |st.table|));
    forall n | 0 <= n <= |st.table| + v ensures Trips(st, n).At? {
      if n <= |st.table| {
        FirstPass(st, n);
      } else {
        SecondPass(st, n - |st.table|);
      }
    }
  }

  /** With an unpinned entry the loop stops within two passes, on the first unpinned entry that was
      not accessed, or else on the first unpinned one after clearing every unpinned accessed bit. */
  lemma ScanStops(st: State)
    requires Valid(st) && Evictable(st)
    ensures TripsNeeded(st) <= 2 * |st.table|
    ensures Trips(st, TripsNeeded(st)) == Hit(Scanned(st).pd, Victim(st))
    ensures forall n :: 0 <= n < TripsNeeded(st) ==> Trips(st, n).At?
  {
    hide Valid, Search, Trips, Swept;
    if Search(st, 0, true) < |st.table| {
      StopsOnIdle(st);
    } else {
      StopsOnUnpinned(st);
    }
  }

  lemma NextTrip(st: State, n: nat, pd: map<PageId, Pte>, e: nat)
    requires Valid(st) && pd.Keys == st.pd.Keys && e < |st.table| && Trips(st, n) == At(pd, e)
    ensures st.table[e].id in st.spt && st.table[e].id in pd
    ensures var id := st.table[e].id; var next := if e + 1 == |st.table| then 0 else e + 1;
      Trips(st, n + 1) == if st.spt[id].pinned then At(pd, next)
                          else if pd[id].accessed then At(pd[id := pd[id].(accessed := false)], next)
                          else Hit(pd, e)
  {
    hide FramesOk, SwapOk, EntriesOk;
  }

  /** What one trip from a reachable position comes to. */
  lemma TripTaken(st: State, n: nat, pd: map<PageId, Pte>, e: nat)
    requires Valid(st) && Evictable(st) && n < TripsNeeded(st)
    requires pd.Keys == st.pd.Keys && e < |st.table| && Trips(st, n) == At(pd, e)
    ensures st.table[e].id in st.spt && st.table[e].id in pd
    ensures var id := st.table[e].id; var next := if e + 1 == |st.table| then 0 else e + 1;
      if st.spt[id].pinned then n + 1 < TripsNeeded(st) && Trips(st, n + 1) == At(pd, next)
      else if pd[id].accessed then
        n + 1 < TripsNeeded(st) && Trips(st, n + 1) == At(pd[id := pd[id].(accessed := false)], next)
      else Scanned(st) == st.(pd := pd) && e == Victim(st)
  {
    hide *;
    NextTrip(st, n, pd, e);
    ScanStops(st);
    ScannedOnlyBits(st);
  }

  lemma ScannedOnlyBits(st: State)
    requires Valid(st) && Evictable(st)
    ensures Scanned(st) == st.(pd := Scanned(st).pd)
  {
    hide Valid, Search, Swept;
  }

  lemma ScanStarts(st: State)
    requires Valid(st) && Evictable(st)
    ensures st.table != [] && TripsNeeded(st) > 0 && Trips(st, 0) == At(st.pd, 0)
  {
    NoTrips(st);
    hide Valid, Swept;
  }

  /** With every entry pinned the loop never stops and never changes anything. */
  lemma {:induction false} ScanNeverStops(st: State, n: nat)
    requires Valid(st) && st.table != [] && !Evictable(st)
    ensures Trips(st, n).At? && Trips(st, n).pd == st.pd
  {
    if n > 0 {
      hide SwapOk, EntriesOk, FramesOk, TableOk, MappingOk;
      ScanNeverStops(st, n - 1);
      assert !Unpinned(st, Trips(st, n - 1).hand);
    }
  }

  /** `evict_frame` returns exactly when some entry of its table is unpinned, and then within two passes. */
  lemma ScanStopsIff(st: State)
    requires Valid(st) && st.table != []
    ensures (exists n :: 0 <= n && Trips(st, n).Hit?) <==> exists i :: 0 <= i < |st.table| && Unpinned(st, i)
    ensures (exists n :: 0 <= n && Trips(st, n).Hit?) <==> exists n :: 0 <= n <= 2 * |st.table| && Trips(st, n).Hit?
  {
    if Evictable(st) {
      ScanStops(st);
      assert Trips(st, TripsNeeded(st)).Hit?;
      assert Unpinned(st, Search(st, 0, false));
    } else {
      forall n | 0 <= n ensures Trips(st, n).At? {
        ScanNeverStops(st, n);
      }
    }
  }
}
