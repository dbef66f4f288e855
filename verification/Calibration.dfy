/** `Fan::rpm_to_pwm_from(map)`: turning a measured PWM-to-RPM map into an RPM-to-PWM map that only ever
    rises, by pairing the sorted RPMs with the PWMs in order. */
module Calibration {
  import opened Basics
  import opened Tables

  function Rpms(measured: Table): (r: seq<Rpm>)
    ensures |r| == |measured|
    ensures forall i :: 0 <= i < |r| ==> r[i] == measured[i].value
  {
    seq(|measured|, i requires 0 <= i < |measured| => measured[i].value)
  }

  ghost predicate NonDecreasing(q: seq<Rpm>) {
    forall i, j :: 0 <= i < j < |q| ==> q[i] <= q[j]
  }

  /** The first position whose RPM exceeds `x`. */
  function FirstAbove(q: seq<Rpm>, x: Rpm): (i: nat)
    ensures i <= |q|
    ensures forall j :: 0 <= j < i ==> q[j] <= x
    ensures i < |q| ==> x < q[i]
  {
    if q == [] || x < q[0] then 0 else 1 + FirstAbove(q[1..], x)
  }

  function Insert(q: seq<Rpm>, x: Rpm): (r: seq<Rpm>)
    ensures |r| == |q| + 1
  {
    var i := FirstAbove(q, x);
    q[..i] + [x] + q[i..]
  }

  /** `std::sort`: the non-decreasing rearrangement. */
  function Sort(q: seq<Rpm>): (r: seq<Rpm>)
    ensures |r| == |q|
  {
    if q == [] then [] else Insert(Sort(q[..|q| - 1]), q[|q| - 1])
  }

  lemma {:induction false} InsertSorts(q: seq<Rpm>, x: Rpm)
    requires NonDecreasing(q)
    ensures NonDecreasing(Insert(q, x))
  {
  }

  lemma {:induction false} InsertKeeps(q: seq<Rpm>, x: Rpm)
    ensures multiset(Insert(q, x)) == multiset(q) + multiset{x}
  {
    var i := FirstAbove(q, x);
    assert q == q[..i] + q[i..];
  }

  lemma {:induction false} SortSorts(q: seq<Rpm>)
    ensures NonDecreasing(Sort(q))
    ensures multiset(Sort(q)) == multiset(q)
  {
    if q != [] {
      SortSorts(q[..|q| - 1]);
      InsertSorts(Sort(q[..|q| - 1]), q[|q| - 1]);
      InsertKeeps(Sort(q[..|q| - 1]), q[|q| - 1]);
      assert q == q[..|q| - 1] + [q[|q| - 1]];
    }
  }

  lemma {:induction false} SortKeepsSorted(q: seq<Rpm>)
    requires NonDecreasing(q)
    ensures Sort(q) == q
  {
    if q != [] {
      SortKeepsSorted(q[..|q| - 1]);
      assert q == q[..|q| - 1] + [q[|q| - 1]];
    }
  }

  function ClampedKey(e: Entry): (p: Pwm)
    ensures p <= PWM_MAX
  {
    ClampPwm(if e.key < 0 then 0 else e.key)
  }

  /** The map after pairing the first `n` RPMs with the first `n` PWMs; later pairs overwrite earlier ones. */
  function Pair(rpms: seq<Rpm>, measured: Table, n: nat): Table
    requires n <= |rpms| == |measured|
  {
    if n == 0 then []
    else Put(Pair(rpms, measured, n - 1), rpms[n - 1], ClampedKey(measured[n - 1]))
  }

  function Repair(measured: Table): Table {
    Pair(Sort(Rpms(measured)), measured, |measured|)
  }

  /** A calibration the control law can use. */
  ghost predicate Calibrated(t: Table) {
    && t != [] && Sorted(t) && Monotone(t)
    && forall i :: 0 <= i < |t| ==> t[i].value <= PWM_MAX
  }

  /** PWMs rise strictly with the RPM. */
  ghost predicate Strict(t: Table) {
    forall i, j :: 0 <= i < j < |t| ==> t[i].value < t[j].value
  }

  ghost predicate PwmKeys(measured: Table) {
    forall i :: 0 <= i < |measured| ==> 0 <= measured[i].key <= PWM_MAX
  }

  lemma {:induction false} ClampOrder(measured: Table, i: nat, j: nat)
    requires Sorted(measured) && i <= j < |measured|
    ensures ClampedKey(measured[i]) <= ClampedKey(measured[j])
    ensures PwmKeys(measured) && i < j ==> ClampedKey(measured[i]) < ClampedKey(measured[j])
  {
  }

  /** Sorted, bounded and rising, strictly if asked, up to the last entry `last`. */
  ghost predicate EndsIn(t: Table, last: Entry, strict: bool) {
    && Calibrated(t) && t[|t| - 1] == last
    && (strict ==> Strict(t))
  }

  lemma {:induction false} PutAtEnd(t: Table, k: int, v: nat)
    requires Sorted(t) && t != [] && t[|t| - 1].key <= k
    ensures Put(t, k, v) ==
            if t[|t| - 1].key == k then t[|t| - 1 := Entry(k, v)] else t + [Entry(k, v)]
  {
    if t[|t| - 1].key == k {
      GetAt(t, |t| - 1);
    } else {
      PutLast(t, k, v);
    }
  }

  lemma {:induction false} EndsInPut(t: Table, last: Entry, next: Entry, strict: bool)
    requires EndsIn(t, last, strict)
    requires last.key <= next.key && last.value <= next.value <= PWM_MAX
    requires strict ==> last.value < next.value
    ensures EndsIn(Put(t, next.key, next.value), next, strict)
  {
    hide Put;
    PutAtEnd(t, next.key, next.value);
  }

  lemma {:induction false} FirstPair(rpms: seq<Rpm>, measured: Table)
    requires 1 <= |rpms| == |measured|
    ensures EndsIn(Pair(rpms, measured, 1), Entry(rpms[0], ClampedKey(measured[0])), PwmKeys(measured))
  {
  }

  /** What pairing keeps: sorted, bounded, non-decreasing, ending in the pair made last. */
  lemma {:induction false} PairInvariant(rpms: seq<Rpm>, measured: Table, n: nat)
    requires 0 < n <= |rpms| == |measured| && NonDecreasing(rpms) && Sorted(measured)
    ensures EndsIn(Pair(rpms, measured, n), Entry(rpms[n - 1], ClampedKey(measured[n - 1])), PwmKeys(measured))
  {
    hide EndsIn, PwmKeys, ClampedKey;
    if n > 1 {
      PairInvariant(rpms, measured, n - 1);
      ClampOrder(measured, n - 2, n - 1);
      EndsInPut(Pair(rpms, measured, n - 1), Entry(rpms[n - 2], ClampedKey(measured[n - 2])),
        Entry(rpms[n - 1], ClampedKey(measured[n - 1])), PwmKeys(measured));
    } else {
      FirstPair(rpms, measured);
    }
  }

  lemma {:induction false} PairSorted(rpms: seq<Rpm>, measured: Table, n: nat)
    requires n <= |rpms| == |measured| && NonDecreasing(rpms) && Sorted(measured)
    ensures Sorted(Pair(rpms, measured, n))
  {
    hide Put;
    if n > 0 {
      PairInvariant(rpms, measured, n);
    }
  }

  /** The last position below `n` that holds `x`. */
  function LastAt(rpms: seq<Rpm>, n: nat, x: int): (r: Option<nat>)
    requires n <= |rpms|
    ensures r.Some? ==> r.value < n && rpms[r.value] == x && forall i :: r.value < i < n ==> rpms[i] != x
    ensures r.None? ==> forall i :: 0 <= i < n ==> rpms[i] != x
  {
    if n == 0 then None else if rpms[n - 1] == x then Some(n - 1) else LastAt(rpms, n - 1, x)
  }

  lemma {:induction false} PairGet(rpms: seq<Rpm>, measured: Table, n: nat, x: int)
    requires n <= |rpms| == |measured| && NonDecreasing(rpms) && Sorted(measured)
    ensures Get(Pair(rpms, measured, n), x) ==
            match LastAt(rpms, n, x) case None => None case Some(i) => Some(ClampedKey(measured[i]))
  {
    hide Put, Sorted, NonDecreasing, ClampedKey;
    if n > 0 {
      PairGet(rpms, measured, n - 1, x);
      PairSorted(rpms, measured, n - 1);
      GetPut(Pair(rpms, measured, n - 1), rpms[n - 1], ClampedKey(measured[n - 1]), x);
    }
  }

  /** The repaired map of any non-empty measurement is usable; with PWMs within 0..255 its PWMs rise
      strictly. */
  lemma {:induction false} RepairCalibrates(measured: Table)
    requires Sorted(measured) && measured != []
    ensures Calibrated(Repair(measured))
    ensures PwmKeys(measured) ==> Strict(Repair(measured))
  {
    SortSorts(Rpms(measured));
    PairInvariant(Sort(Rpms(measured)), measured, |measured|);
  }

  lemma {:induction false} InSeq(q: seq<Rpm>, x: Rpm)
    ensures x in multiset(q) <==> exists i :: 0 <= i < |q| && q[i] == x
  {
  }

  /** The keys of the repaired map are exactly the measured RPMs, and each maps to the PWM at the last of
      its sorted positions. */
  lemma {:induction false} RepairContents(measured: Table, x: Rpm)
    requires Sorted(measured) && measured != []
    ensures Get(Repair(measured), x).Some? <==> x in multiset(Rpms(measured))
    ensures var sorted := Sort(Rpms(measured));
            forall i :: 0 <= i < |sorted| && sorted[i] == x && (i + 1 < |sorted| ==> x < sorted[i + 1]) ==>
                 Get(Repair(measured), x) == Some(ClampedKey(measured[i]))
  {
    hide Get, Pair, Sort;
    var sorted := Sort(Rpms(measured));
    SortSorts(Rpms(measured));
    PairGet(sorted, measured, |measured|, x);
    InSeq(sorted, x);
  }

  /** The top RPM gets the top measured PWM. */
  lemma {:induction false} RepairTop(measured: Table)
    requires Sorted(measured) && measured != []
    ensures var t := Repair(measured);
            && t != []
            && t[|t| - 1].value == ClampedKey(measured[|measured| - 1])
            && t[|t| - 1].key >= 0 && t[|t| - 1].key in multiset(Rpms(measured))
            && forall i :: 0 <= i < |measured| ==> measured[i].value <= t[|t| - 1].key
  {
    hide Sort, Pair, ClampedKey, Put;
    var sorted := Sort(Rpms(measured));
    SortSorts(Rpms(measured));
    PairInvariant(sorted, measured, |measured|);
    assert sorted[|sorted| - 1] in multiset(sorted);
    forall i | 0 <= i < |measured| ensures measured[i].value <= sorted[|sorted| - 1] {
      assert Rpms(measured)[i] in multiset(Rpms(measured));
      assert measured[i].value in multiset(sorted);
    }
  }

  /** The measured map with keys and values exchanged. */
  function Swapped(measured: Table, n: nat): Table
    requires n <= |measured|
  {
    if n == 0 then [] else Swapped(measured, n - 1) + [Entry(measured[n - 1].value, ClampedKey(measured[n - 1]))]
  }

  lemma {:induction false} PairInverts(measured: Table, n: nat)
    requires n <= |measured| && Sorted(measured)
    requires forall i, j :: 0 <= i < j < |measured| ==> measured[i].value < measured[j].value
    ensures Pair(Rpms(measured), measured, n) == Swapped(measured, n)
  {
    if n > 0 {
      PairInverts(measured, n - 1);
      PairSorted(Rpms(measured), measured, n - 1);
      PutLast(Pair(Rpms(measured), measured, n - 1), measured[n - 1].value, ClampedKey(measured[n - 1]));
    }
  }

  lemma {:induction false} SwappedAt(measured: Table, n: nat)
    requires n <= |measured| && PwmKeys(measured)
    requires forall i, j :: 0 <= i < j < |measured| ==> measured[i].value < measured[j].value
    ensures |Swapped(measured, n)| == n && Sorted(Swapped(measured, n))
    ensures forall i :: 0 <= i < n ==> Swapped(measured, n)[i] == Entry(measured[i].value, measured[i].key)
  {
    if n > 0 {
      SwappedAt(measured, n - 1);
    }
  }

  /** A strictly increasing measurement is inverted exactly. */
  lemma {:induction false} RepairInverts(measured: Table)
    requires Sorted(measured) && PwmKeys(measured)
    requires forall i, j :: 0 <= i < j < |measured| ==> measured[i].value < measured[j].value
    ensures Repair(measured) == Swapped(measured, |measured|)
    ensures forall i :: 0 <= i < |measured| ==> Get(Repair(measured), measured[i].value) == Some(measured[i].key)
  {
    hide Get, Pair, Sort;
    SortKeepsSorted(Rpms(measured));
    PairInverts(measured, |measured|);
    forall i | 0 <= i < |measured| ensures Get(Repair(measured), measured[i].value) == Some(measured[i].key) {
      SwappedAt(measured, |measured|);
      GetAt(Swapped(measured, |measured|), i);
    }
  }
}
