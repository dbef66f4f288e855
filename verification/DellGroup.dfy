/** Dell fans are enabled and disabled only together: what keeps the group whole, and which merges break it. The
    hardware grants the same control throughout. */
module DellGroup {
  import opened Basics
  import opened ControllerState
  import opened ControllerRuns
  import opened Merging
  import opened Reloading
  import Devices

  /** While one Dell fan is being updated, every Dell fan that may be enabled has a task. */
  ghost predicate Together(s: State, grants: set<HwId>) {
    forall j, k :: j in s.fans && k in s.fans && s.fans[j].kind == Dell && s.fans[k].kind == Dell ==>
      ModeOf(s, j) == Some(Enabled) && Enableable(s.fans[k], grants) ==> k in s.tasks
  }

  /** Enabling a Dell fan enables the group, whatever was enabled before. */
  lemma {:induction false} GroupEnabled(s: State, f: Device, grants: set<HwId>)
    requires Inv(s) && f.name in s.fans && s.fans[f.name] == f && f.kind == Dell
    requires f.name !in s.tasks && Enableable(f, grants)
    ensures Together(Enable(s, f, grants), grants)
  {
  }

  lemma {:induction false} EnabledAlone(s: State, f: Device, grants: set<HwId>)
    requires Inv(s) && Together(s, grants) && f.name in s.fans && s.fans[f.name] == f
    requires f.kind != Dell || f.name in s.tasks || !Enableable(f, grants)
    ensures Together(Enable(s, f, grants), grants)
  {
    assert Enable(s, f, grants) == s || Enable(s, f, grants).tasks == s.tasks[f.name := Enabled];
  }

  lemma {:induction false} EnableTogether(s: State, f: Device, grants: set<HwId>)
    requires Inv(s) && Together(s, grants) && f.name in s.fans && s.fans[f.name] == f
    ensures Together(Enable(s, f, grants), grants)
  {
    hide Inv, Together, Enable;
    if f.kind != Dell || f.name in s.tasks || !Enableable(f, grants) {
      EnabledAlone(s, f, grants);
    } else {
      GroupEnabled(s, f, grants);
    }
  }

  lemma {:induction false} TaskGone(s: State, k: Name, f: Device)
    requires Inv(s) && k in s.fans && f == s.fans[k].(settings := f.settings, tested := f.tested)
    ensures var t := DisableOne(s.(fans := s.fans[k := f]), k);
            Inv(t) && f.name == k && t.fans[k] == f && k !in t.tasks
  {
  }

  /** A fan outside the group, or one that may not be enabled, can lose its task. */
  lemma {:induction false} TaskGoneTogether(s: State, k: Name, f: Device, grants: set<HwId>)
    requires Together(s, grants) && k in s.fans && f == s.fans[k].(settings := f.settings, tested := f.tested)
    requires f.kind != Dell || !Enableable(f, grants)
    ensures Together(DisableOne(s.(fans := s.fans[k := f]), k), grants)
  {
    var t := DisableOne(s.(fans := s.fans[k := f]), k);
    forall i, j | i in t.fans && j in t.fans && t.fans[i].kind == Dell && t.fans[j].kind == Dell
      ensures ModeOf(t, i) == Some(Enabled) && Enableable(t.fans[j], grants) ==> j in t.tasks
    {
      assert i in s.fans && s.fans[i].kind == Dell && j in s.fans && s.fans[j].kind == Dell;
    }
  }

  /** The end of a test enables the whole group, or concerns a fan that may not be enabled. */
  lemma {:induction false} FinishTogether(s: State, k: Name, settings: Stored, tested: bool, grants: set<HwId>)
    requires Inv(s) && Together(s, grants)
    ensures Together(FinishTest(s, k, settings, tested, grants), grants)
  {
    hide Inv, Together, Enable, Enableable;
    if k in s.fans && k in s.tasks && s.tasks[k] == Testing {
      var f := s.fans[k].(settings := settings, tested := tested);
      var t := DisableOne(s.(fans := s.fans[k := f]), k);
      TaskGone(s, k, f);
      if f.kind == Dell && Enableable(f, grants) {
        GroupEnabled(t, f, grants);
      } else {
        TaskGoneTogether(s, k, f, grants);
        EnableTogether(t, f, grants);
      }
    }
  }

  lemma {:induction false} EnableAllTogether(s: State, grants: set<HwId>)
    ensures Together(EnableAll(s, grants), grants)
  {
  }

  lemma {:induction false} DisableTogether(s: State, k: Name, grants: set<HwId>)
    requires Inv(s) && Together(s, grants)
    ensures Together(Disable(s, k), grants)
  {
  }

  lemma {:induction false} TestTogether(s: State, f: Device, forced: bool, grants: set<HwId>)
    requires Together(s, grants)
    ensures Together(StartTest(s, f, forced), grants)
  {
  }

  lemma {:induction false} RemoveTogether(s: State, keep: set<Name>, grants: set<HwId>)
    requires Inv(s) && Together(s, grants)
    ensures Together(RemoveNotIn(s, keep), grants)
  {
  }

  /** A Dell fan that is being updated. */
  predicate Runs(o: Option<Slot>) {
    o.Some? && o.value.device.kind == Dell && o.value.mode == Some(Enabled)
  }

  /** A Dell fan without a task that may be enabled. */
  predicate Waits(o: Option<Slot>, grants: set<HwId>) {
    o.Some? && o.value.device.kind == Dell && o.value.mode == None && Enableable(o.value.device, grants)
  }

  /** The same invariant, hardware by hardware. */
  ghost predicate SlotsTogether(s: State, grants: set<HwId>) {
    forall g, h :: Runs(SlotOf(s, g)) ==> !Waits(SlotOf(s, h), grants)
  }

  lemma {:induction false} TogetherBySlots(s: State, grants: set<HwId>)
    requires Inv(s)
    ensures Together(s, grants) <==> SlotsTogether(s, grants)
  {
    hide Enableable;
    if Together(s, grants) {
      forall g, h | Runs(SlotOf(s, g)) ensures !Waits(SlotOf(s, h), grants) {
        var j := KeyOf(s.fans, g);
        if HasHw(s.fans, h) {
          var k := KeyOf(s.fans, h);
          assert s.fans[k].kind == Dell && Enableable(s.fans[k], grants) ==> k in s.tasks;
        }
      }
    }
    if SlotsTogether(s, grants) {
      forall j, k | j in s.fans && k in s.fans && s.fans[j].kind == Dell && s.fans[k].kind == Dell
                    && ModeOf(s, j) == Some(Enabled) && Enableable(s.fans[k], grants)
        ensures k in s.tasks
      {
        SlotAt(s, j);
        SlotAt(s, k);
        assert Runs(SlotOf(s, s.fans[j].hwId)) ==> !Waits(SlotOf(s, s.fans[k].hwId), grants);
      }
    }
  }

  /** A source device that the merge leaves without a task although it may be enabled: a new one, or one that
      replaces a disabled fan that was configured before. */
  predicate LeftWaiting(prior: Option<Slot>, dev: Device, p: Policy, grants: set<HwId>) {
    && dev.kind == Dell && Enableable(dev, grants)
    && match prior
       case None => true
       case Some(o) => Replaces(p, dev, o.device) && o.mode == None && o.device.configured
  }

  /** A running Dell fan that the merge does not replace. */
  ghost predicate LeftRunning(s: State, devs: seq<Device>, p: Policy, hw: HwId) {
    && Runs(SlotOf(s, hw))
    && match SourceOf(devs, hw)
       case None => true
       case Some(dev) => !Replaces(p, dev, SlotOf(s, hw).value.device)
  }

  /** The guard of the group: the merge enables all Dell fans, or it leaves none waiting beside a running one. */
  ghost predicate Calm(s: State, devs: seq<Device>, p: Policy, grants: set<HwId>) {
    || SomeCallsDell(s, devs, p)
    || forall i, g :: 0 <= i < |devs| && LeftRunning(s, devs, p, g) ==>
         !LeftWaiting(SlotOf(s, devs[i].hwId), devs[i], p, grants)
  }

  /** A fan that may be enabled keeps its mode across a replacement, or is enabled if it was not configured. */
  lemma {:induction false} ModeAfter(o: Slot, dev: Device, grants: set<HwId>)
    ensures Enableable(dev, grants) ==> (MergedMode(o, dev, grants) == None <==> o.mode == None && o.device.configured)
    ensures MergedMode(o, dev, grants) == Some(Enabled) ==>
              Enableable(dev, grants) && (o.mode == Some(Enabled) || (o.mode == None && !o.device.configured))
  {
    match o.mode
    case None =>
    case Some(Enabled) =>
    case Some(Testing) =>
  }

  /** One slot: it waits after the merge if its device is left waiting, or it is kept and waited before. */
  lemma {:induction false} WaitsAfter(s: State, devs: seq<Device>, p: Policy, grants: set<HwId>, hw: HwId)
    ensures Waits(MergedWith(s, devs, p, grants, hw), grants)
       <==> match SourceOf(devs, hw)
            case None => Waits(SlotOf(s, hw), grants)
            case Some(dev) => LeftWaiting(SlotOf(s, hw), dev, p, grants)
                              || (SlotOf(s, hw).Some? && !Replaces(p, dev, SlotOf(s, hw).value.device)
                                  && Waits(SlotOf(s, hw), grants))
  {
    hide SlotOf, Replaces, MergedMode, Enableable;
    var dev := SourceOf(devs, hw);
    if dev.Some? && SlotOf(s, hw).Some? {
      ModeAfter(SlotOf(s, hw).value, dev.value, grants);
    }
  }

  lemma {:induction false} RunsAfter(s: State, devs: seq<Device>, p: Policy, grants: set<HwId>, hw: HwId)
    ensures LeftRunning(s, devs, p, hw) ==> Runs(MergedWith(s, devs, p, grants, hw))
    ensures Runs(MergedWith(s, devs, p, grants, hw)) && !LeftRunning(s, devs, p, hw) ==> SomeCallsDell(s, devs, p)
  {
    hide SlotOf, Replaces, MergedMode;
    var dev := SourceOf(devs, hw);
    if dev.Some? && Runs(MergedWith(s, devs, p, grants, hw)) && !LeftRunning(s, devs, p, hw) {
      assert SlotOf(s, hw).Some?;
      ModeAfter(SlotOf(s, hw).value, dev.value, grants);
      var i :| 0 <= i < |devs| && devs[i] == dev.value;
      assert CallsDell(SlotOf(s, devs[i].hwId), devs[i], p);
    }
  }

  lemma {:induction false} DellPass(s: State, devs: seq<Device>, p: Policy, grants: set<HwId>, hw: HwId)
    ensures SomeCallsDell(s, devs, p) ==> !Waits(FinalSlot(s, devs, p, grants, hw), grants)
    ensures !SomeCallsDell(s, devs, p) ==> FinalSlot(s, devs, p, grants, hw) == MergedWith(s, devs, p, grants, hw)
  {
    hide MergedWith, SomeCallsDell;
  }

  lemma {:induction false} CalmSlots(s: State, devs: seq<Device>, p: Policy, grants: set<HwId>, g: HwId, h: HwId)
    requires SlotsTogether(s, grants) && Calm(s, devs, p, grants) && !SomeCallsDell(s, devs, p)
    ensures Runs(MergedWith(s, devs, p, grants, g)) ==> !Waits(MergedWith(s, devs, p, grants, h), grants)
  {
    hide SlotOf, SomeCallsDell, LeftWaiting, MergedWith, Replaces, Waits;
    RunsAfter(s, devs, p, grants, g);
    WaitsAfter(s, devs, p, grants, h);
    if Runs(MergedWith(s, devs, p, grants, g)) && SourceOf(devs, h).Some? {
      var i :| 0 <= i < |devs| && devs[i] == SourceOf(devs, h).value;
      assert LeftRunning(s, devs, p, g);
      assert !LeftWaiting(SlotOf(s, devs[i].hwId), devs[i], p, grants);
    }
  }

  /** A merge without label clashes keeps the group together if and only if it enables all Dell fans, or leaves
      none waiting beside a running one. */
  lemma {:induction false} MergeTogetherIff(s: State, devs: seq<Device>, p: Policy, grants: set<HwId>)
    requires Inv(s) && Source(devs) && NoClash(s, devs, p) && Together(s, grants)
    ensures Together(Merge(s, devs, p, grants), grants) <==> Calm(s, devs, p, grants)
  {
    hide Inv, Source, NoClash, Together, Merge, SlotOf, SomeCallsDell, LeftWaiting, LeftRunning, Runs, Waits,
      MergedWith, FinalSlot;
    var t := Merge(s, devs, p, grants);
    MergeInv(s, devs, p, grants);
    TogetherBySlots(s, grants);
    TogetherBySlots(t, grants);
    MergeSlots(s, devs, p, grants);
    if SomeCallsDell(s, devs, p) {
      forall g, h ensures Runs(SlotOf(t, g)) ==> !Waits(SlotOf(t, h), grants) {
        DellPass(s, devs, p, grants, h);
      }
    } else {
      if Calm(s, devs, p, grants) {
        forall g, h ensures Runs(SlotOf(t, g)) ==> !Waits(SlotOf(t, h), grants) {
          DellPass(s, devs, p, grants, g);
          DellPass(s, devs, p, grants, h);
          CalmSlots(s, devs, p, grants, g, h);
        }
      } else {
        var i, g :| 0 <= i < |devs| && LeftRunning(s, devs, p, g)
          && LeftWaiting(SlotOf(s, devs[i].hwId), devs[i], p, grants);
        OwnSource(devs, i);
        DellPass(s, devs, p, grants, g);
        DellPass(s, devs, p, grants, devs[i].hwId);
        RunsAfter(s, devs, p, grants, g);
        WaitsAfter(s, devs, p, grants, devs[i].hwId);
        assert Runs(SlotOf(t, g)) && Waits(SlotOf(t, devs[i].hwId), grants);
      }
    }
  }

  ghost predicate Merges(s: State, devs: seq<Device>, p: Policy, grants: set<HwId>) {
    Source(devs) && NoClash(s, devs, p) && Calm(s, devs, p, grants)
  }

  /** What an operation needs to keep the group: the hardware grants what it did before, and no merge has a label
      clash or leaves a Dell fan waiting beside a running one. */
  ghost predicate Guarded(s: State, op: Operation, grants: set<HwId>) {
    match op
    case EnableFan(_, now) => now == grants
    case EnableAllFans(now) => now == grants
    case TestFinished(_, _, _, now) => now == grants
    case SetDevices(_, _, now) => now == grants
    case MergeDevices(devs, p, now) => now == grants && Merges(s, devs, p, grants)
    case ReloadAll(enumerated, config, now) =>
      && now == grants && Merges(s, enumerated, Policy(false, false), grants)
      && Merges(Merge(s, enumerated, Policy(false, false), grants), Configured(config), Policy(true, true), grants)
    case _ => true
  }

  lemma {:induction false} FanNamed(s: State, k: Name)
    requires Inv(s) && k in s.fans
    ensures s.fans[k].name in s.fans && s.fans[s.fans[k].name] == s.fans[k]
  {
  }

  lemma {:induction false} DisabledTogether(s: State, grants: set<HwId>)
    ensures Together(DisableAll(s), grants) && Together(EMPTY, grants)
  {
  }

  lemma {:induction false} ApplyTogether(s: State, op: Operation, grants: set<HwId>)
    requires Inv(s) && Together(s, grants) && Guarded(s, op, grants)
    ensures Together(Apply(s, op), grants)
  {
    hide Inv, Together, Enable, EnableSet, EnableAll, Disable, Merge, Reload, RemoveNotIn, FinishTest, StartTest, Calm,
      Source, NoClash;
    match op
    case EnableFan(k, now) =>
      if k in s.fans {
        FanNamed(s, k);
        EnableTogether(s, s.fans[k], grants);
      }
    case EnableAllFans(now) => EnableAllTogether(s, grants);
    case DisableFan(k) => DisableTogether(s, k, grants);
    case DisableAllFans => DisabledTogether(s, grants);
    case TestFan(k, forced) =>
      if k in s.fans {
        TestTogether(s, s.fans[k], forced, grants);
      }
    case TestFinished(k, settings, tested, now) => FinishTogether(s, k, settings, tested, grants);
    case MergeDevices(devs, p, now) => MergeTogetherIff(s, devs, p, grants);
    case RemoveDevices(keep) => RemoveTogether(s, keep, grants);
    case ReloadAll(enumerated, config, now) =>
      var t := Merge(s, enumerated, Policy(false, false), grants);
      ReloadIs(s, enumerated, config, grants);
      MergeInv(s, enumerated, Policy(false, false), grants);
      MergeTogetherIff(s, enumerated, Policy(false, false), grants);
      MergeInv(t, Configured(config), Policy(true, true), grants);
      MergeTogetherIff(t, Configured(config), Policy(true, true), grants);
      RemoveTogether(Merge(t, Configured(config), Policy(true, true), grants), Kept(enumerated, config), grants);
    case SetDevices(entries, sensorIds, now) =>
      EnableAllTogether(State(Devices.FromConfig(entries, sensorIds).fans, map[]), grants);
  }

  /** Over every run whose operations are guarded the group stays together. */
  lemma {:induction false} RunTogether(ops: seq<Operation>, grants: set<HwId>)
    requires forall i :: 0 <= i < |ops| ==> Guarded(Run(ops[..i]), ops[i], grants)
    ensures Together(Run(ops), grants)
  {
    hide Apply, Guarded, Together;
    if ops != [] {
      var init := ops[..|ops| - 1];
      assert forall i :: 0 <= i < |init| ==> init[..i] == ops[..i] && init[i] == ops[i];
      RunTogether(init, grants);
      RunInv(init);
      ApplyTogether(Run(init), ops[|ops| - 1], grants);
    } else {
      DisabledTogether(EMPTY, grants);
    }
  }

  /** A Dell fan that is enumerated beside a running one is left disabled. */
  lemma {:induction false} InsertedExample()
    ensures var grants := {"hw1", "hw2"};
            var s := State(map["left" := Device("left", "hw1", Dell, false, NOTHING_STORED, true, true)],
                           map["left" := Enabled]);
            var dev := Device("right", "hw2", Dell, false, NOTHING_STORED, true, true);
            && Together(s, grants) && !Together(Merge(s, [dev], Policy(false, false), grants), grants)
  {
    var grants := {"hw1", "hw2"};
    var s := State(map["left" := Device("left", "hw1", Dell, false, NOTHING_STORED, true, true)],
                   map["left" := Enabled]);
    var dev := Device("right", "hw2", Dell, false, NOTHING_STORED, true, true);
    var p := Policy(false, false);
    assert "left" != "right" by { assert |"left"| != |"right"|; }
    assert "hw1" != "hw2" by { assert "hw1"[2] != "hw2"[2]; }
    assert !HasHw(s.fans, "hw2");
    assert [dev][..0] == [];
    assert MergeFold(s, [], p, grants) == (s, false);
    var t := s.(fans := s.fans["right" := dev]);
    assert MergeOne(s, dev, p, grants) == (t, false);
    assert MergeFold(s, [dev], p, grants) == (t, false);
    assert ModeOf(t, "left") == Some(Enabled) && "right" !in t.tasks;
  }
}
