/** `list_insert_ordered` seen through the keys of a list: the new element goes before the first one
    whose key is strictly greater. Project 1 orders its ready list by falling priority
    (Project 1/thread.c:587-593) and its sleepers by rising wake tick (Project 1/thread.c:577-582). */
module OrderedList {

  predicate Sorted(keys: seq<int>) {
    forall i, j :: 0 <= i < j < |keys| ==> keys[i] <= keys[j]
  }

  /** Where a key goes. */
  function Place(keys: seq<int>, k: int): (at: nat)
    ensures at <= |keys|
    ensures forall i :: 0 <= i < at ==> keys[i] <= k
    ensures at < |keys| ==> k < keys[at]
  {
    if keys == [] || k < keys[0] then 0 else 1 + Place(keys[1..], k)
  }

  function Inserted<T>(list: seq<T>, at: nat, x: T): (r: seq<T>)
    requires at <= |list|
  {
    list[..at] + [x] + list[at..]
  }

  /** Only one place satisfies what `Place` promises. */
  lemma PlaceIs(keys: seq<int>, k: int, at: nat)
    requires at <= |keys| && (forall i :: 0 <= i < at ==> keys[i] <= k) && (at < |keys| ==> k < keys[at])
    ensures Place(keys, k) == at
  {
  }

  /** Insertion keeps a sorted list sorted. */
  lemma InsertKeepsSorted(keys: seq<int>, k: int)
    requires Sorted(keys)
    ensures Sorted(Inserted(keys, Place(keys, k), k))
  {
    var at := Place(keys, k);
    var r := Inserted(keys, at, k);
    forall i, j | 0 <= i < j < |r| ensures r[i] <= r[j] {
      if i == at {
        assert keys[at] <= keys[j - 1];
      }
    }
  }

  /** Everything behind the new element has a strictly greater key, so it is last among its equals. */
  lemma LastAmongEquals(keys: seq<int>, k: int, i: nat)
    requires Sorted(keys) && Place(keys, k) <= i < |keys|
    ensures k < keys[i]
  {
  }

  /** The elements whose keys equal `k`, in order. */
  function Equals<T>(list: seq<T>, keys: seq<int>, k: int): seq<T>
    requires |list| == |keys|
  {
    if list == [] then [] else (if keys[0] == k then [list[0]] else []) + Equals(list[1..], keys[1..], k)
  }

  lemma {:induction false} EqualsOfConcat<T>(a: seq<T>, ka: seq<int>, b: seq<T>, kb: seq<int>, k: int)
    requires |a| == |ka| && |b| == |kb|
    ensures Equals(a + b, ka + kb, k) == Equals(a, ka, k) + Equals(b, kb, k)
  {
    if a == [] {
      assert a + b == b && ka + kb == kb;
    } else {
      EqualsOfConcat(a[1..], ka[1..], b, kb, k);
      assert (a + b)[1..] == a[1..] + b && (ka + kb)[1..] == ka[1..] + kb;
    }
  }

  lemma {:induction false} NoEquals<T>(list: seq<T>, keys: seq<int>, k: int)
    requires |list| == |keys| && k !in keys
    ensures Equals(list, keys, k) == []
  {
    if list != [] {
      NoEquals(list[1..], keys[1..], k);
    }
  }

  /** Insertion appends to the elements with the same key and leaves every other class as it was. */
  lemma InsertIsFifo<T>(list: seq<T>, keys: seq<int>, x: T, kx: int, k: int)
    requires |list| == |keys| && Sorted(keys)
    ensures Equals(Inserted(list, Place(keys, kx), x), Inserted(keys, Place(keys, kx), kx), k)
      == Equals(list, keys, k) + if k == kx then [x] else []
  {
    var at := Place(keys, kx);
    var front, back, fronts, backs := list[..at], list[at..], keys[..at], keys[at..];
    NotBehind(keys, kx);
    hide *;
    InsertedSplit(list, at, x);
    InsertedSplit(keys, at, kx);
    EqualsOfConcat(front, fronts, back, backs, k);
    EqualsOfConcat(front + [x], fronts + [kx], back, backs, k);
    EqualsOfConcat(front, fronts, [x], [kx], k);
    OneEqual(x, kx, k);
    if k == kx {
      NoEquals(back, backs, k);
    }
    OneIsEmpty(Equals(front, fronts, k), Equals([x], [kx], k), Equals(back, backs, k));
  }

  lemma InsertedSplit<T>(list: seq<T>, at: nat, x: T)
    requires at <= |list|
    ensures list == list[..at] + list[at..] && Inserted(list, at, x) == (list[..at] + [x]) + list[at..]
  {
  }

  lemma OneIsEmpty<T>(a: seq<T>, b: seq<T>, c: seq<T>)
    requires b == [] || c == []
    ensures (a + b) + c == (a + c) + b
  {
  }

  lemma NotBehind(keys: seq<int>, k: int)
    requires Sorted(keys)
    ensures k !in keys[Place(keys, k)..]
  {
    forall i | Place(keys, k) <= i < |keys| ensures keys[i] > k {
      LastAmongEquals(keys, k, i);
    }
  }

  lemma OneEqual<T>(x: T, kx: int, k: int)
    ensures Equals([x], [kx], k) == if k == kx then [x] else []
  {
    assert Equals([x][1..], [kx][1..], k) == [];
  }
}
