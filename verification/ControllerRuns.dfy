/** Runs of the controller: any sequence of its operations, each with arbitrary arguments, hardware answers
    and hash-map iteration orders. */
module ControllerRuns {
  import opened Basics
  import opened ControllerState
  import Devices

  datatype Operation =
    | EnableFan(name: Name, grants: set<HwId>)
    | EnableAllFans(grants: set<HwId>)
    | DisableFan(name: Name)
    | DisableAllFans
    | TestFan(name: Name, forced: bool)
    | TestFinished(name: Name, settings: Stored, tested: bool, grants: set<HwId>)
    | MergeDevices(devs: seq<Device>, policy: Policy, grants: set<HwId>)
    | RemoveDevices(keep: set<Name>)
    | ReloadAll(enumerated: seq<Device>, config: Option<seq<Device>>, grants: set<HwId>)
    | SetDevices(entries: seq<Devices.Entry>, sensorIds: set<HwId>, grants: set<HwId>)

  /** `set_devices`: everything is disabled, the devices are replaced, everything is enabled. */
  function SetAll(entries: seq<Devices.Entry>, sensorIds: set<HwId>, grants: set<HwId>): State {
    EnableAll(State(Devices.FromConfig(entries, sensorIds).fans, map[]), grants)
  }

  /** A request for a label that names no fan is answered without touching anything. */
  ghost function Apply(s: State, op: Operation): State {
    match op
    case EnableFan(k, grants) => if k in s.fans then Enable(s, s.fans[k], grants) else s
    case EnableAllFans(grants) => EnableAll(s, grants)
    case DisableFan(k) => if k in s.fans then Disable(s, k) else s
    case DisableAllFans => DisableAll(s)
    case TestFan(k, forced) => if k in s.fans then StartTest(s, s.fans[k], forced) else s
    case TestFinished(k, settings, tested, grants) => FinishTest(s, k, settings, tested, grants)
    case MergeDevices(devs, policy, grants) => Merge(s, devs, policy, grants)
    case RemoveDevices(keep) => RemoveNotIn(s, keep)
    case ReloadAll(enumerated, config, grants) => Reload(s, enumerated, config, grants)
    case SetDevices(entries, sensorIds, grants) => SetAll(entries, sensorIds, grants)
  }

  ghost function Run(ops: seq<Operation>): State {
    if ops == [] then EMPTY else Apply(Run(ops[..|ops| - 1]), ops[|ops| - 1])
  }

  lemma {:induction false} ApplyInv(s: State, op: Operation)
    requires Inv(s)
    ensures Inv(Apply(s, op))
  {
    hide Enable, EnableSet, Merge, Reload, RemoveNotIn, FinishTest;
    match op
    case EnableFan(k, grants) =>
      if k in s.fans {
        EnableInv(s, s.fans[k], grants);
      }
    case EnableAllFans(grants) => EnableSetInv(s, s.fans.Keys, grants);
    case DisableFan(k) =>
    case DisableAllFans =>
    case TestFan(k, forced) =>
    case TestFinished(k, settings, tested, grants) => FinishTestInv(s, k, settings, tested, grants);
    case MergeDevices(devs, policy, grants) => MergeInv(s, devs, policy, grants);
    case RemoveDevices(keep) => RemoveInv(s, keep);
    case ReloadAll(enumerated, config, grants) => ReloadInv(s, enumerated, config, grants);
    case SetDevices(entries, sensorIds, grants) =>
      Devices.LoadedInv(entries, sensorIds);
      var t := State(Devices.FromConfig(entries, sensorIds).fans, map[]);
      EnableSetInv(t, t.fans.Keys, grants);
  }

  lemma {:induction false} EmptyInv()
    ensures Inv(EMPTY)
  {
  }

  /** Over every run, label clashes included: every task label is a fan's, every fan is stored under its own
      label, and hardware ids are pairwise distinct. */
  lemma {:induction false} RunInv(ops: seq<Operation>)
    ensures Inv(Run(ops))
  {
    hide Inv, Apply;
    if ops != [] {
      RunInv(ops[..|ops| - 1]);
      ApplyInv(Run(ops[..|ops| - 1]), ops[|ops| - 1]);
    } else {
      EmptyInv();
    }
  }

  /** No fan runs that is ignored or has no curve: an enabled task's fan passed both gates when it was
      enabled, and neither a test nor a merge of other hardware takes that away. */
  ghost predicate Gated(s: State) {
    forall k :: k in s.tasks && k in s.fans ==> !s.fans[k].ignored && (s.tasks[k] == Enabled ==> s.fans[k].configured)
  }

  lemma {:induction false} EnableGated(s: State, f: Device, grants: set<HwId>)
    requires Inv(s) && Gated(s) && f.name in s.fans && s.fans[f.name] == f
    ensures Gated(Enable(s, f, grants))
  {
  }

  lemma {:induction false} ReInsertGated(s: State, prior: Name, dev: Device)
    requires Inv(s) && Gated(s) && prior in s.fans && s.fans[prior].hwId == dev.hwId
    ensures var t := ReInsert(DisableOne(s, prior), prior, dev);
            Gated(t) && dev.name in t.fans && t.fans[dev.name].name == dev.name
  {
  }

  lemma {:induction false} TaskGated(s: State, f: Device, grants: set<HwId>)
    requires Gated(s) && f.name in s.fans && s.fans[f.name] == f
    ensures Gated(EnableOne(s, f, grants)) && Gated(StartTest(s, f, true))
  {
  }

  lemma {:induction false} MergeOneGated(s: State, dev: Device, p: Policy, grants: set<HwId>)
    requires Inv(s) && Gated(s)
    ensures Gated(MergeOne(s, dev, p, grants).0)
  {
    if HasHw(s.fans, dev.hwId) {
      var prior := KeyOf(s.fans, dev.hwId);
      if Replaces(p, dev, s.fans[prior]) {
        var t := ReInsert(DisableOne(s, prior), prior, dev);
        ReInsertGated(s, prior, dev);
        hide ReInsert, Inv;
        TaskGated(t, t.fans[dev.name], grants);
      }
    }
  }

  lemma {:induction false} EnableSetGated(s: State, names: set<Name>, grants: set<HwId>)
    requires Gated(s)
    ensures Gated(EnableSet(s, names, grants))
  {
  }

  lemma {:induction false} MergeFoldGated(s: State, devs: seq<Device>, p: Policy, grants: set<HwId>)
    requires Inv(s) && Gated(s)
    ensures Gated(MergeFold(s, devs, p, grants).0)
  {
    hide MergeOne, Inv, Gated;
    if devs != [] {
      var init := devs[..|devs| - 1];
      MergeFoldInv(s, init, p, grants);
      MergeFoldGated(s, init, p, grants);
      MergeOneGated(MergeFold(s, init, p, grants).0, devs[|devs| - 1], p, grants);
    }
  }

  lemma {:induction false} MergeGated(s: State, devs: seq<Device>, p: Policy, grants: set<HwId>)
    requires Inv(s) && Gated(s)
    ensures Gated(Merge(s, devs, p, grants))
  {
    hide MergeFold, EnableSet, Gated;
    MergeFoldGated(s, devs, p, grants);
    var t := MergeFold(s, devs, p, grants).0;
    EnableSetGated(t, DellNames(t), grants);
  }

  lemma {:induction false} RemoveGated(s: State, keep: set<Name>)
    requires Inv(s) && Gated(s)
    ensures Gated(RemoveNotIn(s, keep))
  {
  }

  lemma {:induction false} ReloadGated(s: State, enumerated: seq<Device>, config: Option<seq<Device>>,
      grants: set<HwId>)
    requires Inv(s) && Gated(s)
    ensures Gated(Reload(s, enumerated, config, grants))
  {
    hide Merge, RemoveNotIn, Inv, Gated;
    var t := Merge(s, enumerated, Policy(false, false), grants);
    MergeInv(s, enumerated, Policy(false, false), grants);
    MergeGated(s, enumerated, Policy(false, false), grants);
    match config
    case Some(devs) =>
      MergeInv(t, devs, Policy(true, true), grants);
      MergeGated(t, devs, Policy(true, true), grants);
      RemoveGated(Merge(t, devs, Policy(true, true), grants), Names(enumerated) + Names(devs));
    case None =>
      RemoveGated(t, Names(enumerated));
  }

  lemma {:induction false} FinishTestGated(s: State, k: Name, settings: Stored, tested: bool, grants: set<HwId>)
    requires Inv(s) && Gated(s)
    ensures Gated(FinishTest(s, k, settings, tested, grants))
  {
    hide Enable;
    if k in s.fans && k in s.tasks && s.tasks[k] == Testing {
      var f := s.fans[k].(settings := settings, tested := tested);
      EnableGated(DisableOne(s.(fans := s.fans[k := f]), k), f, grants);
    }
  }

  lemma {:induction false} ApplyGated(s: State, op: Operation)
    requires Inv(s) && Gated(s)
    ensures Gated(Apply(s, op))
  {
    hide Enable, EnableSet, Merge, Reload, RemoveNotIn, FinishTest;
    match op
    case EnableFan(k, grants) =>
      if k in s.fans {
        EnableGated(s, s.fans[k], grants);
      }
    case EnableAllFans(grants) => EnableSetGated(s, s.fans.Keys, grants);
    case DisableFan(k) =>
    case DisableAllFans =>
    case TestFan(k, forced) =>
    case TestFinished(k, settings, tested, grants) => FinishTestGated(s, k, settings, tested, grants);
    case MergeDevices(devs, policy, grants) => MergeGated(s, devs, policy, grants);
    case RemoveDevices(keep) => RemoveGated(s, keep);
    case ReloadAll(enumerated, config, grants) => ReloadGated(s, enumerated, config, grants);
    case SetDevices(entries, sensorIds, grants) =>
      var t := State(Devices.FromConfig(entries, sensorIds).fans, map[]);
      EnableSetGated(t, t.fans.Keys, grants);
  }

  lemma {:induction false} EmptyGated()
    ensures Gated(EMPTY)
  {
  }

  /** Over every run, no ignored fan has a task, and every fan being updated is configured. */
  lemma {:induction false} RunGated(ops: seq<Operation>)
    ensures Gated(Run(ops))
  {
    hide Inv, Apply, Gated;
    if ops != [] {
      RunInv(ops[..|ops| - 1]);
      RunGated(ops[..|ops| - 1]);
      ApplyGated(Run(ops[..|ops| - 1]), ops[|ops| - 1]);
    } else {
      EmptyGated();
    }
  }
}
