/** What a merge stores, said of the two fans' own fields: which fan is kept, which is replaced, and the task it
    goes on with. */
module MergedFans {
  import opened Basics
  import opened ControllerState
  import opened Merging
  import opened Reloading

  /** No device's label is that of a fan with other hardware. */
  ghost predicate LabelsFree(s: State, devs: seq<Device>) {
    forall i :: 0 <= i < |devs| && devs[i].name in s.fans ==> s.fans[devs[i].name].hwId == devs[i].hwId
  }

  /** The two fans persist the same. */
  predicate SameMessage(f: Device, g: Device) {
    && f.name == g.name && f.ignored == g.ignored && f.kind == g.kind
    && f.settings.sensor == g.settings.sensor
    && f.settings.tempToRpm == g.settings.tempToRpm && f.settings.rpmToPwm == g.settings.rpmToPwm
    && f.settings.startPwm == g.settings.startPwm && f.settings.interval == g.settings.interval
  }

  /** The device takes the place of the stored fan of its hardware. */
  predicate Supersedes(p: Policy, dev: Device, prior: Device) {
    p.replace && !(p.deep && SameMessage(dev, prior))
  }

  lemma {:induction false} SupersedesIff(p: Policy, dev: Device, prior: Device)
    ensures Supersedes(p, dev, prior) <==> Replaces(p, dev, prior)
  {
  }

  lemma {:induction false} FreeHarmless(s: State, devs: seq<Device>, p: Policy)
    requires LabelsFree(s, devs)
    ensures NoClash(s, devs, p)
  {
  }

  /** Under the invariant the fan of some hardware is the one found. */
  lemma {:induction false} FoundFan(s: State, k: Name)
    requires Inv(s) && k in s.fans
    ensures HasHw(s.fans, s.fans[k].hwId) && KeyOf(s.fans, s.fans[k].hwId) == k && s.fans[k].name == k
    ensures DeviceOf(s, s.fans[k].hwId) == Some(s.fans[k])
  {
  }

  lemma {:induction false} StoredAs(t: State, dev: Device)
    requires Inv(t) && DeviceOf(t, dev.hwId) == Some(dev)
    ensures dev.name in t.fans && t.fans[dev.name] == dev
    ensures forall k :: k in t.fans && t.fans[k].hwId == dev.hwId ==> k == dev.name
  {
  }

  /** The fan that a merge stores for a source device whose hardware is known: the device itself if it supersedes
      the stored fan, which is then gone from its old label, and else the stored fan. */
  lemma {:induction false} MergeStores(s: State, devs: seq<Device>, p: Policy, grants: set<HwId>, i: nat, k: Name)
    requires Inv(s) && Source(devs) && LabelsFree(s, devs)
    requires i < |devs| && k in s.fans && s.fans[k].hwId == devs[i].hwId
    ensures var t := Merge(s, devs, p, grants);
            if Supersedes(p, devs[i], s.fans[k]) then
              && devs[i].name in t.fans && t.fans[devs[i].name] == devs[i]
              && (k != devs[i].name ==> !(k in t.fans && t.fans[k].hwId == devs[i].hwId))
            else
              k in t.fans && t.fans[k] == s.fans[k]
  {
    hide Inv, Source, LabelsFree, Merge, DeviceOf, Replaces, Supersedes;
    var t := Merge(s, devs, p, grants);
    FreeHarmless(s, devs, p);
    MergeInv(s, devs, p, grants);
    MergedDevice(s, devs, p, grants, devs[i].hwId);
    OwnSource(devs, i);
    FoundFan(s, k);
    SupersedesIff(p, devs[i], s.fans[k]);
    StoredAs(t, if Supersedes(p, devs[i], s.fans[k]) then devs[i] else s.fans[k]);
  }

  /** A source device of new hardware is stored as it is, and every fan of other hardware stays. */
  lemma {:induction false} MergeInserts(s: State, devs: seq<Device>, p: Policy, grants: set<HwId>, i: nat, k: Name)
    requires Inv(s) && Source(devs) && LabelsFree(s, devs)
    ensures var t := Merge(s, devs, p, grants);
            && (i < |devs| && (forall j :: j in s.fans ==> s.fans[j].hwId != devs[i].hwId) ==>
                  devs[i].name in t.fans && t.fans[devs[i].name] == devs[i])
            && (k in s.fans && (forall j :: 0 <= j < |devs| ==> devs[j].hwId != s.fans[k].hwId) ==>
                  k in t.fans && t.fans[k] == s.fans[k])
  {
    hide Inv, Source, LabelsFree, Merge, DeviceOf, Replaces;
    var t := Merge(s, devs, p, grants);
    FreeHarmless(s, devs, p);
    MergeInv(s, devs, p, grants);
    if i < |devs| && forall j :: j in s.fans ==> s.fans[j].hwId != devs[i].hwId {
      MergedDevice(s, devs, p, grants, devs[i].hwId);
      OwnSource(devs, i);
      DeviceKnown(s, devs[i].hwId);
      StoredAs(t, devs[i]);
    }
    if k in s.fans && forall j :: 0 <= j < |devs| ==> devs[j].hwId != s.fans[k].hwId {
      MergedDevice(s, devs, p, grants, s.fans[k].hwId);
      FoundFan(s, k);
      StoredAs(t, s.fans[k]);
    }
  }

  /** A configured merge takes the configuration over: whatever was stored before, the fan stored under each
      configured label has that device's hardware, kind and message. */
  lemma {:induction false} ConfiguredMergeStores(s: State, devs: seq<Device>, grants: set<HwId>, i: nat)
    requires Inv(s) && Source(devs) && LabelsFree(s, devs) && i < |devs|
    ensures var t := Merge(s, devs, Policy(true, true), grants);
            && devs[i].name in t.fans && t.fans[devs[i].name].hwId == devs[i].hwId
            && SameMessage(t.fans[devs[i].name], devs[i])
  {
    hide Inv, Source, LabelsFree, Merge;
    if k :| k in s.fans && s.fans[k].hwId == devs[i].hwId {
      MergeStores(s, devs, Policy(true, true), grants, i, k);
      FoundFan(s, k);
    } else {
      MergeInserts(s, devs, Policy(true, true), grants, i, devs[i].name);
    }
  }

  /** Enumeration never changes a stored fan. */
  lemma {:induction false} EnumeratedMergeKeeps(s: State, devs: seq<Device>, grants: set<HwId>, k: Name)
    requires Inv(s) && Source(devs) && LabelsFree(s, devs) && k in s.fans
    ensures var t := Merge(s, devs, Policy(false, false), grants); k in t.fans && t.fans[k] == s.fans[k]
  {
    hide Inv, Source, LabelsFree, Merge;
    if i :| 0 <= i < |devs| && devs[i].hwId == s.fans[k].hwId {
      MergeStores(s, devs, Policy(false, false), grants, i, k);
    } else {
      MergeInserts(s, devs, Policy(false, false), grants, 0, k);
    }
  }

  /** The labels are still free of the configured ones after the enumerated devices are merged. */
  lemma {:induction false} StillFree(s: State, enumerated: seq<Device>, devs: seq<Device>, t: State)
    requires Inv(t) && LabelsFree(s, devs) && LabelsAgree(enumerated, devs) && ComesFrom(s, enumerated, t)
    ensures LabelsFree(t, devs)
  {
  }

  lemma {:induction false} KeepsLabel(s: State, keep: set<Name>, k: Name)
    ensures k in s.fans && k in keep ==> k in RemoveNotIn(s, keep).fans && RemoveNotIn(s, keep).fans[k] == s.fans[k]
  {
  }

  /** A reload takes the configuration over: an edited curve, sensor, calibration or label arrives. */
  lemma {:induction false} ReloadStores(s: State, enumerated: seq<Device>, devs: seq<Device>, grants: set<HwId>, i: nat)
    requires Inv(s) && Source(enumerated) && Source(devs) && LabelsAgree(enumerated, devs)
    requires LabelsFree(s, enumerated) && LabelsFree(s, devs) && i < |devs|
    ensures var t := Reload(s, enumerated, Some(devs), grants);
            && devs[i].name in t.fans && t.fans[devs[i].name].hwId == devs[i].hwId
            && SameMessage(t.fans[devs[i].name], devs[i])
  {
    hide Inv, Source, LabelsFree, Merge, SameMessage, LabelsAgree, RemoveNotIn, NoClash;
    var t := Merge(s, enumerated, Policy(false, false), grants);
    FreeHarmless(s, enumerated, Policy(false, false));
    MergeInv(s, enumerated, Policy(false, false), grants);
    MergeComesFrom(s, enumerated, Policy(false, false), grants);
    StillFree(s, enumerated, devs, t);
    ConfiguredMergeStores(t, devs, grants, i);
    KeepsLabel(Merge(t, devs, Policy(true, true), grants), Names(enumerated) + Names(devs), devs[i].name);
    assert devs[i].name in Names(devs);
  }

  /** The merge enables all Dell fans: some Dell device superseded a fan that was enabled, or a disabled one that had
      no curve while the device has one. */
  ghost predicate GroupCalled(s: State, devs: seq<Device>, p: Policy) {
    exists i, k :: && 0 <= i < |devs| && k in s.fans && s.fans[k].hwId == devs[i].hwId
                   && Supersedes(p, devs[i], s.fans[k]) && devs[i].kind == Dell
                   && (ModeOf(s, k) == Some(Enabled)
                       || (ModeOf(s, k) == None && !s.fans[k].configured && devs[i].configured))
  }

  lemma {:induction false} GroupCalledIff(s: State, devs: seq<Device>, p: Policy)
    requires Inv(s)
    ensures GroupCalled(s, devs, p) <==> SomeCallsDell(s, devs, p)
  {
    hide Inv, Replaces, Supersedes;
    if SomeCallsDell(s, devs, p) {
      var i :| 0 <= i < |devs| && CallsDell(SlotOf(s, devs[i].hwId), devs[i], p);
      SupersedesIff(p, devs[i], s.fans[KeyOf(s.fans, devs[i].hwId)]);
    }
    if GroupCalled(s, devs, p) {
      var i, k :| && 0 <= i < |devs| && k in s.fans && s.fans[k].hwId == devs[i].hwId
                  && Supersedes(p, devs[i], s.fans[k]) && devs[i].kind == Dell
                  && (ModeOf(s, k) == Some(Enabled)
                      || (ModeOf(s, k) == None && !s.fans[k].configured && devs[i].configured));
      SlotAt(s, k);
      SupersedesIff(p, devs[i], s.fans[k]);
      assert CallsDell(SlotOf(s, devs[i].hwId), devs[i], p);
    }
  }

  /** The mode a superseded fan's task goes on in, before the Dell group is enabled: a test goes on unless the fan is
      now ignored, a running fan goes on if it may, one that had no curve starts if it may, any other stays off. */
  function NextMode(mode: Option<Mode>, prior: Device, dev: Device, grants: set<HwId>): Option<Mode> {
    if mode == Some(Testing) then
      if dev.ignored then None else Some(Testing)
    else if dev.ignored || dev.hwId !in grants || !dev.configured then None
    else if mode == Some(Enabled) || !prior.configured then Some(Enabled)
    else None
  }

  /** The mode after the Dell group is enabled. */
  function GroupMode(called: bool, mode: Option<Mode>, f: Device, grants: set<HwId>): Option<Mode> {
    if called && mode == None && f.kind == Dell && !f.ignored && f.configured && f.hwId in grants then Some(Enabled)
    else mode
  }

  lemma {:induction false} NextModeIs(o: Slot, dev: Device, grants: set<HwId>)
    ensures MergedMode(o, dev, grants) == NextMode(o.mode, o.device, dev, grants)
  {
  }

  lemma {:induction false} GroupModeIs(o: Slot, grants: set<HwId>)
    ensures DellSlot(o, grants).device == o.device
    ensures DellSlot(o, grants).mode == GroupMode(true, o.mode, o.device, grants)
  {
  }

  /** The slot of some hardware after a merge. */
  lemma {:induction false} ModeAfterMerge(s: State, devs: seq<Device>, p: Policy, grants: set<HwId>, hw: HwId, k: Name)
    requires Inv(s) && Source(devs) && NoClash(s, devs, p)
    requires var t := Merge(s, devs, p, grants); k in t.fans && t.fans[k].hwId == hw
    ensures var t := Merge(s, devs, p, grants);
            Some(Slot(t.fans[k], ModeOf(t, k))) == FinalSlot(s, devs, p, grants, hw)
  {
    hide Inv, Source, NoClash, Merge, SomeCallsDell, MergedWith;
    MergeSlots(s, devs, p, grants);
    SlotAt(Merge(s, devs, p, grants), k);
  }

  lemma {:induction false} StoredUnder(s: State, devs: seq<Device>, p: Policy, grants: set<HwId>, i: nat, k: Name)
    requires Inv(s) && Source(devs) && LabelsFree(s, devs)
    requires i < |devs| && k in s.fans && s.fans[k].hwId == devs[i].hwId
    ensures var t := Merge(s, devs, p, grants);
            var next := if Supersedes(p, devs[i], s.fans[k]) then devs[i].name else k;
            next in t.fans && t.fans[next].hwId == devs[i].hwId
  {
    hide Inv, Source, LabelsFree, Merge, SameMessage;
    MergeStores(s, devs, p, grants, i, k);
  }

  /** The task that a fan whose hardware was known goes on with, under the label it is stored under now. */
  lemma {:induction false} MergeModes(s: State, devs: seq<Device>, p: Policy, grants: set<HwId>, i: nat, k: Name)
    requires Inv(s) && Source(devs) && LabelsFree(s, devs)
    requires i < |devs| && k in s.fans && s.fans[k].hwId == devs[i].hwId
    ensures var t := Merge(s, devs, p, grants);
            var called := GroupCalled(s, devs, p);
            if Supersedes(p, devs[i], s.fans[k]) then
              ModeOf(t, devs[i].name) ==
              GroupMode(called, NextMode(ModeOf(s, k), s.fans[k], devs[i], grants), devs[i], grants)
            else ModeOf(t, k) == GroupMode(called, ModeOf(s, k), s.fans[k], grants)
  {
    hide Inv, Source, LabelsFree, Merge, SomeCallsDell, GroupCalled, Supersedes, Replaces, MergedMode, DellSlot,
      NextMode;
    var dev, prior := devs[i], s.fans[k];
    FreeHarmless(s, devs, p);
    StoredUnder(s, devs, p, grants, i, k);
    SupersedesIff(p, dev, prior);
    GroupCalledIff(s, devs, p);
    SlotAt(s, k);
    OwnSource(devs, i);
    var o := Slot(prior, ModeOf(s, k));
    NextModeIs(o, dev, grants);
    GroupModeIs(MergedSlot(Some(o), dev, p, grants), grants);
    ModeAfterMerge(s, devs, p, grants, dev.hwId, if Supersedes(p, dev, prior) then dev.name else k);
  }

  /** A fan of new hardware starts without a task, and one of hardware outside the source keeps its task, unless
      the Dell group is enabled. */
  lemma {:induction false} OtherModes(s: State, devs: seq<Device>, p: Policy, grants: set<HwId>, i: nat, k: Name)
    requires Inv(s) && Source(devs) && LabelsFree(s, devs)
    ensures var t := Merge(s, devs, p, grants);
            var called := GroupCalled(s, devs, p);
            && (i < |devs| && (forall j :: j in s.fans ==> s.fans[j].hwId != devs[i].hwId) ==>
                  ModeOf(t, devs[i].name) == GroupMode(called, None, devs[i], grants))
            && (k in s.fans && (forall j :: 0 <= j < |devs| ==> devs[j].hwId != s.fans[k].hwId) ==>
                  ModeOf(t, k) == GroupMode(called, ModeOf(s, k), s.fans[k], grants))
  {
    hide Inv, Source, LabelsFree, Merge, SomeCallsDell, GroupCalled, DellSlot;
    FreeHarmless(s, devs, p);
    GroupCalledIff(s, devs, p);
    MergeInserts(s, devs, p, grants, i, k);
    if i < |devs| && forall j :: j in s.fans ==> s.fans[j].hwId != devs[i].hwId {
      OwnSource(devs, i);
      assert SlotOf(s, devs[i].hwId) == None;
      GroupModeIs(Slot(devs[i], None), grants);
      ModeAfterMerge(s, devs, p, grants, devs[i].hwId, devs[i].name);
    }
    if k in s.fans && forall j :: 0 <= j < |devs| ==> devs[j].hwId != s.fans[k].hwId {
      SlotAt(s, k);
      GroupModeIs(Slot(s.fans[k], ModeOf(s, k)), grants);
      ModeAfterMerge(s, devs, p, grants, s.fans[k].hwId, k);
    }
  }

  lemma {:induction false} EnableMode(s: State, f: Device, grants: set<HwId>)
    ensures var t := EnableOne(s, f, grants);
            && t.fans == s.fans && (forall j :: j != f.name ==> ModeOf(t, j) == ModeOf(s, j))
            && ModeOf(t, f.name) ==
               if ModeOf(s, f.name) == None && !f.ignored && f.configured && f.hwId in grants then Some(Enabled)
               else ModeOf(s, f.name)
  {
  }

  lemma {:induction false} TestMode(s: State, f: Device)
    ensures var t := StartTest(s, f, true);
            && t.fans == s.fans && (forall j :: j != f.name ==> ModeOf(t, j) == ModeOf(s, j))
            && ModeOf(t, f.name) == if f.ignored then ModeOf(s, f.name) else Some(Testing)
  {
  }

  /** Under a label clash the old entry goes and the new one is not placed. */
  lemma {:induction false} ReInsertClash(s: State, k: Name, dev: Device)
    requires k != dev.name && dev.name in s.fans
    ensures var t := ReInsert(DisableOne(s, k), k, dev);
            t.fans == s.fans - {k} && t.tasks == s.tasks - {k}
  {
    assert dev.name in s.fans - {k};
  }

  /** A label clash in one step: a device of unknown hardware is dropped. */
  lemma {:induction false} ClashDrops(s: State, dev: Device, p: Policy, grants: set<HwId>)
    requires dev.name in s.fans && forall j :: j in s.fans ==> s.fans[j].hwId != dev.hwId
    ensures MergeOne(s, dev, p, grants) == (s, false)
  {
    assert !HasHw(s.fans, dev.hwId);
  }

  /** One that supersedes a fan is lost with that fan, and what the fan's task called for is done to the fan that
      holds the label, which keeps any task of its own except for a test. */
  lemma {:induction false} ClashMoves(s: State, dev: Device, p: Policy, grants: set<HwId>, k: Name)
    requires Inv(s) && dev.name in s.fans && s.fans[dev.name].hwId != dev.hwId
    requires k in s.fans && s.fans[k].hwId == dev.hwId && Supersedes(p, dev, s.fans[k])
    ensures var t := MergeOne(s, dev, p, grants).0;
            var holder, own, lost := s.fans[dev.name], ModeOf(s, dev.name), ModeOf(s, k);
            && t.fans == s.fans - {k}
            && (forall j :: j != dev.name && j != k ==> ModeOf(t, j) == ModeOf(s, j))
            && ModeOf(t, dev.name) ==
               if lost == Some(Testing) then
                 if holder.ignored then own else Some(Testing)
               else if own == None && !holder.ignored && holder.configured && holder.hwId in grants
                       && (lost == Some(Enabled) || !s.fans[k].configured) then Some(Enabled)
               else own
  {
    FoundFan(s, k);
    FoundFan(s, dev.name);
    SupersedesIff(p, dev, s.fans[k]);
    hide Replaces, Supersedes, Inv, EnableOne, StartTest, ReInsert, DisableOne;
    var u := ReInsert(DisableOne(s, k), k, dev);
    ReInsertClash(s, k, dev);
    EnableMode(u, s.fans[dev.name], grants);
    TestMode(u, s.fans[dev.name]);
    assert forall j :: j != k ==> ModeOf(u, j) == ModeOf(s, j);
    match ModeOf(s, k)
    case None =>
    case Some(Enabled) =>
    case Some(Testing) =>
  }
}
