/** `std::map` as its in-order sequence of entries: keys strictly increase, an iterator is an index. */
module Tables {
  import opened Basics

  datatype Entry = Entry(key: int, value: nat)
  type Table = seq<Entry>

  ghost predicate Sorted(t: Table) {
    forall i, j :: 0 <= i < j < |t| ==> t[i].key < t[j].key
  }

  /** Values never decrease along the keys. */
  ghost predicate Monotone(t: Table) {
    forall i, j :: 0 <= i < j < |t| ==> t[i].value <= t[j].value
  }

  /** The keys come from an unsigned type. */
  ghost predicate KeysNatural(t: Table) {
    forall i :: 0 <= i < |t| ==> t[i].key >= 0
  }

  /** `std::map::lower_bound`: the first position whose key is not below `x`. */
  function LowerBound(t: Table, x: int): (i: nat)
    ensures i <= |t|
    ensures i < |t| ==> x <= t[i].key
    ensures forall j :: 0 <= j < i ==> t[j].key < x
  {
    if t == [] || x <= t[0].key then 0 else 1 + LowerBound(t[1..], x)
  }

  /** `m[k] = v`: overwrites the entry with key `k`, or inserts one at its place. */
  function Put(t: Table, k: int, v: nat): (r: Table)
    ensures |t| <= |r| <= |t| + 1
  {
    var i := LowerBound(t, k);
    if i < |t| && t[i].key == k then t[i := Entry(k, v)]
    else t[..i] + [Entry(k, v)] + t[i..]
  }

  /** `m.find(k)`. */
  function Get(t: Table, k: int): Option<nat> {
    var i := LowerBound(t, k);
    if i < |t| && t[i].key == k then Some(t[i].value) else None
  }

  /** In a sorted table the lower bound is the only position with every smaller key before it. */
  lemma {:induction false} LowerBoundIs(t: Table, x: int, i: nat)
    requires Sorted(t) && i <= |t|
    requires i < |t| ==> x <= t[i].key
    requires 0 < i ==> t[i - 1].key < x
    ensures LowerBound(t, x) == i
  {
  }

  lemma {:induction false} GetAt(t: Table, i: nat)
    requires Sorted(t) && i < |t|
    ensures LowerBound(t, t[i].key) == i
    ensures Get(t, t[i].key) == Some(t[i].value)
  {
  }

  lemma {:induction false} PutSorted(t: Table, k: int, v: nat)
    requires Sorted(t)
    ensures Sorted(Put(t, k, v))
  {
  }

  lemma {:induction false} GetOverwritten(t: Table, i: nat, v: nat, x: int)
    requires Sorted(t) && i < |t|
    ensures Get(t[i := Entry(t[i].key, v)], x) == if x == t[i].key then Some(v) else Get(t, x)
  {
    var r := t[i := Entry(t[i].key, v)];
    if x == t[i].key {
      LowerBoundIs(r, x, i);
    } else {
      LowerBoundIs(r, x, LowerBound(t, x));
    }
  }

  lemma {:induction false} GetInserted(t: Table, r: Table, i: nat, x: int)
    requires Sorted(t) && Sorted(r) && i <= |t| && |r| == |t| + 1
    requires forall j :: 0 <= j < i ==> t[j] == r[j]
    requires forall j :: i <= j < |t| ==> t[j] == r[j + 1]
    ensures Get(r, x) == if x == r[i].key then Some(r[i].value) else Get(t, x)
  {
    var b := LowerBound(t, x);
    if x == r[i].key {
      LowerBoundIs(r, x, i);
    } else if x < r[i].key {
      assert i == |t| || t[i] == r[i + 1];
      LowerBoundIs(r, x, b);
    } else {
      assert b <= i || t[b - 1] == r[b];
      LowerBoundIs(r, x, b + 1);
    }
  }

  /** The map laws: a lookup after an assignment sees the new value at that key and the old one elsewhere. */
  lemma {:induction false} GetPut(t: Table, k: int, v: nat, x: int)
    requires Sorted(t)
    ensures Get(Put(t, k, v), x) == if x == k then Some(v) else Get(t, x)
  {
    PutSorted(t, k, v);
    var i := LowerBound(t, k);
    hide Get, Sorted;
    if i < |t| && t[i].key == k {
      GetOverwritten(t, i, v, x);
    } else {
      GetInserted(t, Put(t, k, v), i, x);
    }
  }

  /** A key above every other goes to the end. */
  lemma {:induction false} PutLast(t: Table, k: int, v: nat)
    requires Sorted(t)
    requires t != [] ==> t[|t| - 1].key < k
    ensures Put(t, k, v) == t + [Entry(k, v)]
  {
  }

  lemma {:induction false} TailGet(t: Table, k: int)
    requires Sorted(t) && t != []
    ensures Get(t[1..], k) == if k <= t[0].key then None else Get(t, k)
  {
  }

  /** Sorted tables that answer every lookup alike are the same table. */
  lemma {:induction false} Extensional(t: Table, u: Table)
    requires Sorted(t) && Sorted(u)
    requires forall k :: Get(t, k) == Get(u, k)
    ensures t == u
  {
    assert t != [] ==> Get(t, t[0].key).Some? && Get(u, t[0].key).Some?;
    assert u != [] ==> Get(u, u[0].key).Some? && Get(t, u[0].key).Some?;
    if t != [] {
      GetAt(t, 0);
      GetAt(u, 0);
      assert t[0] == u[0];
      forall k ensures Get(t[1..], k) == Get(u[1..], k) {
        TailGet(t, k);
        TailGet(u, k);
      }
      Extensional(t[1..], u[1..]);
    }
  }
}
