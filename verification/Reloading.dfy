/** Reload is idempotent: once devices match the hardware and the configuration, reloading both again
    changes nothing; and when one reload gets there. */
module Reloading {
  import opened Basics
  import opened ControllerState
  import opened Merging

  function Configured(config: Option<seq<Device>>): seq<Device> {
    match config case Some(devs) => devs case None => []
  }

  function Kept(enumerated: seq<Device>, config: Option<seq<Device>>): set<Name> {
    Names(enumerated) + Names(Configured(config))
  }

  ghost predicate Present(s: State, devs: seq<Device>) {
    forall i :: 0 <= i < |devs| ==> HasHw(s.fans, devs[i].hwId)
  }

  ghost predicate UpToDate(s: State, devs: seq<Device>) {
    forall i :: 0 <= i < |devs| ==>
      HasHw(s.fans, devs[i].hwId) && DeepEqual(devs[i], s.fans[KeyOf(s.fans, devs[i].hwId)])
  }

  /** All hardware is known, every configured fan is as configured, and no other label is left. Tasks play
      no part. */
  ghost predicate Settled(s: State, enumerated: seq<Device>, config: Option<seq<Device>>) {
    && Present(s, enumerated) && UpToDate(s, Configured(config))
    && s.fans.Keys <= Kept(enumerated, config)
  }

  lemma {:induction false} FoldKeeps(s: State, devs: seq<Device>, p: Policy, grants: set<HwId>)
    requires forall i :: 0 <= i < |devs| ==>
               HasHw(s.fans, devs[i].hwId) && !Replaces(p, devs[i], s.fans[KeyOf(s.fans, devs[i].hwId)])
    ensures MergeFold(s, devs, p, grants) == (s, false)
  {
    hide HasHw, MergeOne;
    if devs != [] {
      FoldKeeps(s, devs[..|devs| - 1], p, grants);
      Keeping(s, devs[|devs| - 1], p, grants);
    }
  }

  lemma {:induction false} RemoveNothing(s: State, keep: set<Name>)
    requires Inv(s) && s.fans.Keys <= keep
    ensures RemoveNotIn(s, keep) == s
  {
  }

  /** Reloading a settled state changes neither devices nor tasks: the deep comparison and the label filter
      are both no-ops. */
  lemma {:induction false} SettledReload(s: State, enumerated: seq<Device>, config: Option<seq<Device>>,
      grants: set<HwId>)
    requires Inv(s) && Settled(s, enumerated, config)
    ensures Reload(s, enumerated, config, grants) == s
  {
    hide MergeFold, RemoveNotIn, HasHw;
    FoldKeeps(s, enumerated, Policy(false, false), grants);
    FoldKeeps(s, Configured(config), Policy(true, true), grants);
    RemoveNothing(s, Kept(enumerated, config));
    assert config == None ==> Kept(enumerated, config) == Names(enumerated);
  }

  /** No configured label is the label of other enumerated hardware. */
  ghost predicate LabelsAgree(enumerated: seq<Device>, devs: seq<Device>) {
    forall i, j :: 0 <= i < |enumerated| && 0 <= j < |devs| && enumerated[i].name == devs[j].name ==>
      enumerated[i].hwId == devs[j].hwId
  }

  lemma {:induction false} MergeComesFrom(s: State, devs: seq<Device>, p: Policy, grants: set<HwId>)
    requires Inv(s) && Source(devs) && NoClash(s, devs, p)
    ensures ComesFrom(s, devs, Merge(s, devs, p, grants))
  {
    hide Inv, Source, NoClash, MergeFold, SlotOf, MergedWith;
    FoldSlots(s, devs, p, grants);
  }

  lemma {:induction false} NamesIn(s: State, devs: seq<Device>, t: State)
    requires Inv(t) && ComesFrom(s, devs, t)
    ensures t.fans.Keys <= Names(devs) + s.fans.Keys
  {
  }

  lemma {:induction false} EnumeratedClash(t: State, enumerated: seq<Device>, devs: seq<Device>)
    requires Inv(t) && ComesFrom(EMPTY, enumerated, t) && LabelsAgree(enumerated, devs)
    ensures NoClash(t, devs, Policy(true, true))
  {
  }

  lemma {:induction false} MergePresent(s: State, devs: seq<Device>, p: Policy, grants: set<HwId>, hw: HwId)
    requires Inv(s) && Source(devs) && NoClash(s, devs, p)
    ensures SlotOf(s, hw).Some? || SourceOf(devs, hw).Some? ==> HasHw(Merge(s, devs, p, grants).fans, hw)
  {
    hide Inv, Source, NoClash, Merge, SomeCallsDell;
    MergeSlots(s, devs, p, grants);
    assert SlotOf(Merge(s, devs, p, grants), hw) == FinalSlot(s, devs, p, grants, hw);
  }

  /** After a merge that replaces what differs, every source device is deep-equal to the stored one. */
  lemma {:induction false} MergeUpdates(s: State, devs: seq<Device>, grants: set<HwId>)
    requires Inv(s) && Source(devs) && NoClash(s, devs, Policy(true, true))
    ensures UpToDate(Merge(s, devs, Policy(true, true), grants), devs)
  {
    hide Inv, NoClash, Merge, SomeCallsDell;
    var t := Merge(s, devs, Policy(true, true), grants);
    MergeSlots(s, devs, Policy(true, true), grants);
    forall i | 0 <= i < |devs| ensures HasHw(t.fans, devs[i].hwId)
        && DeepEqual(devs[i], t.fans[KeyOf(t.fans, devs[i].hwId)]) {
      OwnSource(devs, i);
      assert SlotOf(t, devs[i].hwId).Some?;
    }
  }

  lemma {:induction false} MergePresentAll(s: State, devs: seq<Device>, p: Policy, grants: set<HwId>, all: seq<Device>)
    requires Inv(s) && Source(devs) && NoClash(s, devs, p) && Present(s, all)
    ensures Present(Merge(s, devs, p, grants), all)
  {
    hide Inv, Source, NoClash, Merge;
    forall i | 0 <= i < |all| ensures HasHw(Merge(s, devs, p, grants).fans, all[i].hwId) {
      MergePresent(s, devs, p, grants, all[i].hwId);
    }
  }

  lemma {:induction false} MergeEnumerated(enumerated: seq<Device>, grants: set<HwId>)
    requires Source(enumerated)
    ensures var t := Merge(EMPTY, enumerated, Policy(false, false), grants);
            Inv(t) && ComesFrom(EMPTY, enumerated, t) && Present(t, enumerated) && t.fans.Keys <= Names(enumerated)
  {
    hide Merge, Source, MergeFold;
    assert Inv(EMPTY) && NoClash(EMPTY, enumerated, Policy(false, false));
    var t := Merge(EMPTY, enumerated, Policy(false, false), grants);
    MergeInv(EMPTY, enumerated, Policy(false, false), grants);
    MergeComesFrom(EMPTY, enumerated, Policy(false, false), grants);
    NamesIn(EMPTY, enumerated, t);
    hide Inv, NoClash, HasHw;
    forall i | 0 <= i < |enumerated| ensures HasHw(t.fans, enumerated[i].hwId) {
      OwnSource(enumerated, i);
      MergePresent(EMPTY, enumerated, Policy(false, false), grants, enumerated[i].hwId);
    }
  }

  lemma {:induction false} NothingConfigured(s: State)
    ensures UpToDate(s, [])
  {
  }

  /** The first reload after start-up settles the devices. */
  lemma {:induction false} FirstReloadSettles(enumerated: seq<Device>, config: Option<seq<Device>>, grants: set<HwId>)
    requires Source(enumerated) && Source(Configured(config)) && LabelsAgree(enumerated, Configured(config))
    ensures var t := Reload(EMPTY, enumerated, config, grants); Inv(t) && Settled(t, enumerated, config)
  {
    hide Merge, Source, LabelsAgree, RemoveNotIn, Inv, Present, UpToDate, ComesFrom;
    var t := Merge(EMPTY, enumerated, Policy(false, false), grants);
    MergeEnumerated(enumerated, grants);
    if config.Some? {
      var devs := config.value;
      EnumeratedClash(t, enumerated, devs);
      var u := Merge(t, devs, Policy(true, true), grants);
      MergeInv(t, devs, Policy(true, true), grants);
      MergeComesFrom(t, devs, Policy(true, true), grants);
      NamesIn(t, devs, u);
      MergePresentAll(t, devs, Policy(true, true), grants, enumerated);
      MergeUpdates(t, devs, grants);
      RemoveNothing(u, Names(enumerated) + Names(devs));
    } else {
      RemoveNothing(t, Names(enumerated));
      NothingConfigured(t);
    }
  }

  /** With unchanged hardware and configuration a second reload leaves devices and tasks exactly as the
      first did, and so does any later one after fans have been enabled or disabled in between. */
  lemma {:induction false} ReloadIdempotent(enumerated: seq<Device>, config: Option<seq<Device>>, grants: set<HwId>,
                                            later: State, laterGrants: set<HwId>)
    requires Source(enumerated) && Source(Configured(config)) && LabelsAgree(enumerated, Configured(config))
    requires Inv(later) && later.fans == Reload(EMPTY, enumerated, config, grants).fans
    ensures var t := Reload(EMPTY, enumerated, config, grants);
            Reload(t, enumerated, config, laterGrants) == t
    ensures Reload(later, enumerated, config, laterGrants) == later
  {
    hide Reload, Source, LabelsAgree, Inv;
    FirstReloadSettles(enumerated, config, grants);
    SettledReload(Reload(EMPTY, enumerated, config, grants), enumerated, config, laterGrants);
    SettledReload(later, enumerated, config, laterGrants);
  }

  /** The fan known for some hardware. */
  ghost function DeviceOf(s: State, hw: HwId): Option<Device> {
    match SlotOf(s, hw)
    case None => None
    case Some(o) => Some(o.device)
  }

  /** Which fan a merge without label clashes leaves for some hardware. */
  lemma {:induction false} MergedDevice(s: State, devs: seq<Device>, p: Policy, grants: set<HwId>, hw: HwId)
    requires Inv(s) && Source(devs) && NoClash(s, devs, p)
    ensures DeviceOf(Merge(s, devs, p, grants), hw) ==
            match (SourceOf(devs, hw), DeviceOf(s, hw))
            case (None, prior) => prior
            case (Some(dev), None) => Some(dev)
            case (Some(dev), Some(prior)) => Some(if Replaces(p, dev, prior) then dev else prior)
  {
    hide Inv, Source, NoClash, Merge, SlotOf, SomeCallsDell, Replaces, MergedMode;
    MergeSlots(s, devs, p, grants);
    assert SlotOf(Merge(s, devs, p, grants), hw) == FinalSlot(s, devs, p, grants, hw);
  }

  lemma {:induction false} RemovedDevice(s: State, keep: set<Name>, hw: HwId)
    requires Inv(s)
    ensures var d := DeviceOf(s, hw);
            DeviceOf(RemoveNotIn(s, keep), hw) == if d.Some? && d.value.name in keep then d else None
  {
    var t := RemoveNotIn(s, keep);
    RemoveInv(s, keep);
    if HasHw(t.fans, hw) {
      var j := KeyOf(t.fans, hw);
      SlotAt(t, j);
      assert j in s.fans && t.fans[j] == s.fans[j] && j in keep;
      SlotAt(s, j);
      KeyIsName(s, j);
    } else if HasHw(s.fans, hw) {
      var k := KeyOf(s.fans, hw);
      KeyIsName(s, k);
      assert k in keep <==> k in t.fans;
    }
  }

  lemma {:induction false} ReloadIs(s: State, enumerated: seq<Device>, config: Option<seq<Device>>, grants: set<HwId>)
    ensures Reload(s, enumerated, config, grants) ==
            RemoveNotIn(Merge(Merge(s, enumerated, Policy(false, false), grants), Configured(config),
                              Policy(true, true), grants), Kept(enumerated, config))
  {
    hide RemoveNotIn;
    assert config == None ==> Kept(enumerated, config) == Names(enumerated);
  }

  /** Enumerated hardware that is not configured but already known is known under a label that is kept. */
  ghost predicate KnownAsKept(s: State, enumerated: seq<Device>, config: Option<seq<Device>>) {
    forall i :: 0 <= i < |enumerated| && HasHw(s.fans, enumerated[i].hwId)
                && SourceOf(Configured(config), enumerated[i].hwId) == None ==>
                  KeyOf(s.fans, enumerated[i].hwId) in Kept(enumerated, config)
  }

  /** A configured device's label is kept. */
  lemma {:induction false} SourceNamed(enumerated: seq<Device>, config: Option<seq<Device>>, hw: HwId)
    ensures var d := SourceOf(Configured(config), hw); d.Some? ==> d.value.name in Kept(enumerated, config)
    ensures var d := SourceOf(enumerated, hw); d.Some? ==> d.value.name in Kept(enumerated, config)
  {
  }

  /** The fan a reload leaves for some hardware. */
  lemma {:induction false} ReloadedDevice(s: State, enumerated: seq<Device>, config: Option<seq<Device>>,
      grants: set<HwId>, hw: HwId)
    requires Inv(s) && Source(enumerated) && Source(Configured(config))
    requires NoClash(s, enumerated, Policy(false, false))
    requires NoClash(Merge(s, enumerated, Policy(false, false), grants), Configured(config), Policy(true, true))
    ensures var d := DeviceOf(Reload(s, enumerated, config, grants), hw);
            var known := if DeviceOf(s, hw).Some? then DeviceOf(s, hw) else SourceOf(enumerated, hw);
            match SourceOf(Configured(config), hw)
            case Some(dev) => d.Some? && DeepEqual(dev, d.value)
            case None => d == if known.Some? && known.value.name in Kept(enumerated, config) then known else None
  {
    hide Inv, Source, NoClash, Merge, RemoveNotIn, Reload, DeviceOf;
    var t := Merge(s, enumerated, Policy(false, false), grants);
    var u := Merge(t, Configured(config), Policy(true, true), grants);
    ReloadIs(s, enumerated, config, grants);
    MergeInv(s, enumerated, Policy(false, false), grants);
    MergeInv(t, Configured(config), Policy(true, true), grants);
    MergedDevice(s, enumerated, Policy(false, false), grants, hw);
    MergedDevice(t, Configured(config), Policy(true, true), grants, hw);
    RemovedDevice(u, Kept(enumerated, config), hw);
    SourceNamed(enumerated, config, hw);
  }

  lemma {:induction false} KnownLabel(s: State, hw: HwId)
    requires Inv(s) && HasHw(s.fans, hw)
    ensures DeviceOf(s, hw).Some? && DeviceOf(s, hw).value.name == KeyOf(s.fans, hw)
  {
  }

  lemma {:induction false} DeviceKnown(s: State, hw: HwId)
    ensures DeviceOf(s, hw).Some? <==> HasHw(s.fans, hw)
    ensures HasHw(s.fans, hw) ==> DeviceOf(s, hw) == Some(s.fans[KeyOf(s.fans, hw)])
  {
  }

  lemma {:induction false} ReloadLabels(s: State, enumerated: seq<Device>, config: Option<seq<Device>>,
      grants: set<HwId>)
    ensures Reload(s, enumerated, config, grants).fans.Keys <= Kept(enumerated, config)
  {
    hide Merge;
    ReloadIs(s, enumerated, config, grants);
  }

  /** Without label clashes a reload, from any state, settles the devices if and only if no enumerated hardware that
      the configuration leaves out is known under a label that neither names: such a fan is removed although its
      hardware is there. */
  lemma {:induction false} ReloadSettlesIff(s: State, enumerated: seq<Device>, config: Option<seq<Device>>,
      grants: set<HwId>)
    requires Inv(s) && Source(enumerated) && Source(Configured(config))
    requires NoClash(s, enumerated, Policy(false, false))
    requires NoClash(Merge(s, enumerated, Policy(false, false), grants), Configured(config), Policy(true, true))
    ensures Settled(Reload(s, enumerated, config, grants), enumerated, config) <==> KnownAsKept(s, enumerated, config)
  {
    hide Inv, Source, NoClash, Merge, Reload, DeviceOf, DeepEqual, HasHw, Kept, SourceOf;
    var v := Reload(s, enumerated, config, grants);
    assert v.fans.Keys <= Kept(enumerated, config) by { ReloadLabels(s, enumerated, config, grants); }
    var devs := Configured(config);
    forall i | 0 <= i < |devs|
      ensures HasHw(v.fans, devs[i].hwId) && DeepEqual(devs[i], v.fans[KeyOf(v.fans, devs[i].hwId)])
    {
      OwnSource(devs, i);
      ReloadedDevice(s, enumerated, config, grants, devs[i].hwId);
      DeviceKnown(v, devs[i].hwId);
    }
    forall i | 0 <= i < |enumerated|
      ensures HasHw(v.fans, enumerated[i].hwId) <==>
              !(HasHw(s.fans, enumerated[i].hwId) && SourceOf(devs, enumerated[i].hwId) == None
                && KeyOf(s.fans, enumerated[i].hwId) !in Kept(enumerated, config))
    {
      var hw := enumerated[i].hwId;
      OwnSource(enumerated, i);
      SourceNamed(enumerated, config, hw);
      ReloadedDevice(s, enumerated, config, grants, hw);
      DeviceKnown(v, hw);
      DeviceKnown(s, hw);
      if HasHw(s.fans, hw) {
        KnownLabel(s, hw);
      }
    }
  }

  lemma {:induction false} RemovesAll(s: State, keep: set<Name>)
    requires Inv(s) && s.fans.Keys !! keep
    ensures RemoveNotIn(s, keep) == EMPTY
  {
    assert RemoveNotIn(s, keep).fans == map[] && RemoveNotIn(s, keep).tasks == map[];
  }

  /** A running fan labelled "cpu" in a configuration that no longer lists it, while its hardware is enumerated as
      "fan1": one reload leaves no fan at all. */
  lemma {:induction false} DroppedExample(grants: set<HwId>)
    ensures var s := State(map["cpu" := FanAt("cpu", "hw1")], map["cpu" := Enabled]);
            Reload(s, [FanAt("fan1", "hw1")], Some([]), grants) == EMPTY
  {
    hide MergeFold, RemoveNotIn;
    var s := State(map["cpu" := FanAt("cpu", "hw1")], map["cpu" := Enabled]);
    var enumerated := [FanAt("fan1", "hw1")];
    assert "cpu" != "fan1" by { assert |"cpu"| != |"fan1"|; }
    assert s.fans["cpu"].hwId == "hw1";
    FoldKeeps(s, enumerated, Policy(false, false), grants);
    FoldKeeps(s, [], Policy(true, true), grants);
    assert "cpu" !in Names(enumerated) && "cpu" !in Names([]);
    RemovesAll(s, Names(enumerated) + Names([]));
  }
}
