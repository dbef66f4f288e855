/** `Util::RemovableMutex`: any number of notifiers may hold it together, or any number of removers, meant
    never both. Threads interleave; waiting for the counter and changing it are separate steps, as in the
    source. */
module RemovableMutex {
  import opened Basics

  /** Where a thread stands. `NotifierPassed` and `RemoverPassed` have left the wait loop and not yet changed
      the counter. */
  datatype Phase = Idle | NotifierPassed | Notifying | RemoverPassed | Removing

  datatype State = State(counter: int, threads: seq<Phase>)

  datatype Event =
    | Spawn
    | NotifierWait(t: nat) | NotifierEnter(t: nat) | NotifierLeave(t: nat)
    | RemoverWait(t: nat) | RemoverEnter(t: nat) | RemoverLeave(t: nat)

  predicate At(s: State, t: nat, p: Phase) {
    t < |s.threads| && s.threads[t] == p
  }

  function Move(s: State, t: nat, p: Phase, change: int): State
    requires t < |s.threads|
  {
    State(s.counter + change, s.threads[t := p])
  }

  /** The step an event takes, if it can happen. */
  function Next(s: State, e: Event): Option<State> {
    match e
    case Spawn => Some(s.(threads := s.threads + [Idle]))
    case NotifierWait(t) => if At(s, t, Idle) && s.counter >= 0 then Some(Move(s, t, NotifierPassed, 0)) else None
    case NotifierEnter(t) => if At(s, t, NotifierPassed) then Some(Move(s, t, Notifying, 1)) else None
    case NotifierLeave(t) => if At(s, t, Notifying) then Some(Move(s, t, Idle, -1)) else None
    case RemoverWait(t) => if At(s, t, Idle) && s.counter <= 0 then Some(Move(s, t, RemoverPassed, 0)) else None
    case RemoverEnter(t) => if At(s, t, RemoverPassed) then Some(Move(s, t, Removing, -1)) else None
    case RemoverLeave(t) => if At(s, t, Removing) then Some(Move(s, t, Idle, 1)) else None
  }

  /** A thread enters only after its own wait, leaves only what it entered, and waits again after it has left. */
  lemma {:induction false} WaitEnterLeave(s: State, t: nat)
    ensures var u := Next(s, NotifierLeave(t));
            u.Some? ==> Next(u.value, NotifierEnter(t)) == None && Next(u.value, RemoverEnter(t)) == None
    ensures var u := Next(s, RemoverLeave(t));
            u.Some? ==> Next(u.value, NotifierEnter(t)) == None && Next(u.value, RemoverEnter(t)) == None
    ensures var u := Next(s, NotifierWait(t));
            u.Some? ==> var v := Next(u.value, NotifierEnter(t));
                        v.Some? && Next(v.value, NotifierLeave(t)) == Some(s) && Next(u.value, RemoverEnter(t)) == None
    ensures var u := Next(s, RemoverWait(t));
            u.Some? ==> var v := Next(u.value, RemoverEnter(t));
                        v.Some? && Next(v.value, RemoverLeave(t)) == Some(s) && Next(u.value, NotifierEnter(t)) == None
  {
    if At(s, t, Idle) {
      assert s.threads[t := NotifierPassed][t := Notifying][t := Idle] == s.threads;
      assert s.threads[t := RemoverPassed][t := Removing][t := Idle] == s.threads;
    }
  }

  const INIT := State(0, [])

  /** The state after a schedule, if all its steps can happen. */
  function Run(events: seq<Event>): Option<State> {
    if events == [] then Some(INIT)
    else
      match Run(events[..|events| - 1])
      case Some(s) => Next(s, events[|events| - 1])
      case None => None
  }

  function Count(threads: seq<Phase>, p: Phase): nat {
    if threads == [] then 0
    else Count(threads[..|threads| - 1], p) + if threads[|threads| - 1] == p then 1 else 0
  }

  lemma {:induction false} CountMove(threads: seq<Phase>, t: nat, q: Phase, p: Phase)
    requires t < |threads|
    ensures Count(threads[t := q], p) ==
            Count(threads, p) - (if threads[t] == p then 1 else 0) + (if q == p then 1 else 0)
  {
    var n := |threads| - 1;
    var moved := threads[t := q];
    if t == n {
      assert moved[..n] == threads[..n];
    } else {
      CountMove(threads[..n], t, q, p);
      assert moved[..n] == threads[..n][t := q];
    }
  }

  lemma {:induction false} CountSpawn(threads: seq<Phase>, p: Phase)
    ensures Count(threads + [Idle], p) == Count(threads, p) + if p == Idle then 1 else 0
  {
  }

  /** The counter is the notifiers holding minus the removers holding. */
  ghost predicate Balanced(s: State) {
    s.counter == Count(s.threads, Notifying) - Count(s.threads, Removing)
  }

  ghost predicate Exclusive(s: State) {
    Count(s.threads, Notifying) == 0 || Count(s.threads, Removing) == 0
  }

  /** The condition waited for still holds when the counter changes. */
  predicate Timely(s: State, e: Event) {
    match e
    case NotifierEnter(_) => s.counter >= 0
    case RemoverEnter(_) => s.counter <= 0
    case _ => true
  }

  /** Every step keeps the counter balanced, and an exclusive state stays exclusive exactly when the step is
      timely. */
  lemma {:induction false} StepIff(s: State, e: Event)
    requires Balanced(s) && Next(s, e).Some?
    ensures Balanced(Next(s, e).value)
    ensures Exclusive(s) ==> (Exclusive(Next(s, e).value) <==> Timely(s, e))
  {
    if e == Spawn {
      CountSpawn(s.threads, Notifying);
      CountSpawn(s.threads, Removing);
    } else {
      var q := Next(s, e).value.threads[e.t];
      CountMove(s.threads, e.t, q, Notifying);
      CountMove(s.threads, e.t, q, Removing);
    }
  }

  /** While exclusion lasts, an idle notifier has to wait exactly while some remover holds, and an idle
      remover exactly while some notifier holds: holders of one kind share. */
  lemma {:induction false} WaitsIff(s: State, t: nat)
    requires Balanced(s) && Exclusive(s) && At(s, t, Idle)
    ensures Next(s, NotifierWait(t)) == None <==> Count(s.threads, Removing) > 0
    ensures Next(s, RemoverWait(t)) == None <==> Count(s.threads, Notifying) > 0
  {
  }

  /** Over every schedule of any number of threads the counter is balanced. */
  lemma {:induction false} AlwaysBalanced(events: seq<Event>)
    requires Run(events).Some?
    ensures Balanced(Run(events).value)
  {
    if events != [] {
      AlwaysBalanced(events[..|events| - 1]);
      StepIff(Run(events[..|events| - 1]).value, events[|events| - 1]);
    }
  }

  lemma {:induction false} PrefixRuns(events: seq<Event>, k: nat)
    requires Run(events).Some? && k <= |events|
    ensures Run(events[..k]).Some?
    decreases |events|
  {
    if k < |events| {
      var init := events[..|events| - 1];
      PrefixRuns(init, k);
      assert init[..k] == events[..k];
    } else {
      assert events[..k] == events;
    }
  }

  ghost predicate AlwaysExclusive(events: seq<Event>)
    requires Run(events).Some?
  {
    forall k :: 0 <= k <= |events| ==> Run(events[..k]).Some? && Exclusive(Run(events[..k]).value)
  }

  ghost predicate AlwaysTimely(events: seq<Event>)
    requires Run(events).Some?
  {
    forall k :: 0 <= k < |events| ==> Run(events[..k]).Some? && Timely(Run(events[..k]).value, events[k])
  }

  lemma {:induction false} StepOfRun(events: seq<Event>, k: nat)
    requires Run(events).Some? && k < |events|
    ensures Run(events[..k]).Some? && Run(events[..k + 1]) == Next(Run(events[..k]).value, events[k])
    ensures Balanced(Run(events[..k]).value)
  {
    PrefixRuns(events, k);
    PrefixRuns(events, k + 1);
    AlwaysBalanced(events[..k]);
    assert events[..k + 1][..k] == events[..k];
  }

  lemma {:induction false} ExclusiveUpTo(events: seq<Event>, k: nat)
    requires Run(events).Some? && AlwaysTimely(events) && k <= |events|
    ensures Run(events[..k]).Some? && Exclusive(Run(events[..k]).value)
  {
    if k == 0 {
      assert events[..0] == [];
    } else {
      ExclusiveUpTo(events, k - 1);
      StepOfRun(events, k - 1);
      StepIff(Run(events[..k - 1]).value, events[k - 1]);
    }
  }

  /** As written, with the wait and the change as two steps, notifiers and removers exclude each other
      throughout a schedule exactly when every change finds its condition still true. */
  lemma {:induction false} ExclusionIff(events: seq<Event>)
    requires Run(events).Some?
    ensures AlwaysExclusive(events) <==> AlwaysTimely(events)
  {
    if AlwaysTimely(events) {
      forall k | 0 <= k <= |events| ensures Run(events[..k]).Some? && Exclusive(Run(events[..k]).value) {
        ExclusiveUpTo(events, k);
      }
    }
    if AlwaysExclusive(events) {
      forall k | 0 <= k < |events| ensures Run(events[..k]).Some? && Timely(Run(events[..k]).value, events[k]) {
        StepOfRun(events, k);
        StepIff(Run(events[..k]).value, events[k]);
      }
    }
  }

  /** Wait and change as one atomic step: every entry directly follows its own wait. */
  predicate Atomic(events: seq<Event>) {
    forall k :: 0 <= k < |events| ==>
      && (events[k].NotifierEnter? ==> k > 0 && events[k - 1] == NotifierWait(events[k].t))
      && (events[k].RemoverEnter? ==> k > 0 && events[k - 1] == RemoverWait(events[k].t))
  }

  /** Under that assumption no notifier and remover ever hold together, whatever the schedule. */
  lemma {:induction false} AtomicExcludes(events: seq<Event>)
    requires Run(events).Some? && Atomic(events)
    ensures AlwaysExclusive(events)
  {
    forall k | 0 <= k < |events| ensures Run(events[..k]).Some? && Timely(Run(events[..k]).value, events[k]) {
      StepOfRun(events, k);
      if k > 0 {
        StepOfRun(events, k - 1);
      }
    }
    ExclusionIff(events);
  }

  lemma {:induction false} RunAppend(events: seq<Event>, e: Event)
    ensures Run(events + [e]) == match Run(events) { case Some(s) => Next(s, e) case None => None }
  {
  }

  /** Without it, both can be inside: each passes its wait before the other enters. */
  lemma {:induction false} RaceExample()
    ensures Run([Spawn, Spawn, NotifierWait(0), RemoverWait(1), NotifierEnter(0), RemoverEnter(1)])
         == Some(State(0, [Notifying, Removing]))
  {
    assert [] + [Spawn] == [Spawn];
    RunAppend([], Spawn);
    assert [Spawn] + [Spawn] == [Spawn, Spawn];
    RunAppend([Spawn], Spawn);
    var waited := [Spawn, Spawn, NotifierWait(0), RemoverWait(1)];
    RunAppend([Spawn, Spawn], NotifierWait(0));
    assert [Spawn, Spawn, NotifierWait(0)] + [RemoverWait(1)] == waited;
    RunAppend([Spawn, Spawn, NotifierWait(0)], RemoverWait(1));
    assert [] + [Idle] == [Idle] && [Idle] + [Idle] == [Idle, Idle];
    assert [Idle, Idle][0 := NotifierPassed] == [NotifierPassed, Idle];
    assert [NotifierPassed, Idle][1 := RemoverPassed] == [NotifierPassed, RemoverPassed];
    assert Run(waited) == Some(State(0, [NotifierPassed, RemoverPassed]));
    assert [NotifierPassed, RemoverPassed][0 := Notifying] == [Notifying, RemoverPassed];
    assert [Notifying, RemoverPassed][1 := Removing] == [Notifying, Removing];
    RunAppend(waited, NotifierEnter(0));
    RunAppend(waited + [NotifierEnter(0)], RemoverEnter(1));
    assert waited + [NotifierEnter(0)] + [RemoverEnter(1)]
        == [Spawn, Spawn, NotifierWait(0), RemoverWait(1), NotifierEnter(0), RemoverEnter(1)];
  }
}
