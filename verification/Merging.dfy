/** What a merge does, hardware by hardware. Under the invariant a state is a table from hardware ids to
    slots; without label clashes a merge changes each slot on its own, whatever the iteration order, and it is
    exactly label clashes that can lose hardware. */
module Merging {
  import opened Basics
  import opened ControllerState

  /** A device and the mode of its task. */
  datatype Slot = Slot(device: Device, mode: Option<Mode>)

  function ModeOf(s: State, k: Name): Option<Mode> {
    if k in s.tasks then Some(s.tasks[k]) else None
  }

  ghost function SlotOf(s: State, hw: HwId): Option<Slot> {
    if HasHw(s.fans, hw) then
      var k := KeyOf(s.fans, hw);
      Some(Slot(s.fans[k], ModeOf(s, k)))
    else None
  }

  /** The slot of a fan found by its label. */
  lemma {:induction false} SlotAt(s: State, k: Name)
    requires Inv(s) && k in s.fans
    ensures HasHw(s.fans, s.fans[k].hwId) && KeyOf(s.fans, s.fans[k].hwId) == k
    ensures SlotOf(s, s.fans[k].hwId) == Some(Slot(s.fans[k], ModeOf(s, k)))
  {
  }

  lemma {:induction false} SlotIncluded(s: State, t: State, k: Name)
    requires Inv(s) && Inv(t) && k in s.fans
    requires SlotOf(s, s.fans[k].hwId) == SlotOf(t, s.fans[k].hwId)
    ensures k in t.fans && t.fans[k] == s.fans[k] && ModeOf(t, k) == ModeOf(s, k)
  {
  }

  /** Slots determine the state. */
  lemma {:induction false} SlotsDetermine(s: State, t: State)
    requires Inv(s) && Inv(t)
    requires forall hw :: SlotOf(s, hw) == SlotOf(t, hw)
    ensures s == t
  {
    forall k ensures k in s.fans ==> k in t.fans && t.fans[k] == s.fans[k] && ModeOf(t, k) == ModeOf(s, k) {
      if k in s.fans {
        SlotIncluded(s, t, k);
      }
    }
    forall k ensures k in t.fans ==> k in s.fans && ModeOf(t, k) == ModeOf(s, k) {
      if k in t.fans {
        SlotIncluded(t, s, k);
      }
    }
    assert s.fans == t.fans;
    forall k ensures ModeOf(s, k) == ModeOf(t, k) {
      assert k !in s.fans ==> k !in s.tasks && k !in t.tasks;
    }
    assert forall k :: k in s.tasks <==> ModeOf(s, k).Some?;
    assert forall k :: k in t.tasks <==> ModeOf(t, k).Some?;
    assert s.tasks == t.tasks;
  }

  /** The mode a replaced device continues in. */
  function MergedMode(o: Slot, dev: Device, grants: set<HwId>): Option<Mode> {
    if o.mode == Some(Testing) then (if dev.ignored then None else Some(Testing))
    else if (o.mode == Some(Enabled) || !o.device.configured) && Enableable(dev, grants) then Some(Enabled)
    else None
  }

  /** What one source device makes of the slot of its hardware. */
  function MergedSlot(prior: Option<Slot>, dev: Device, p: Policy, grants: set<HwId>): Slot {
    match prior
    case None => Slot(dev, None)
    case Some(o) =>
      if !Replaces(p, dev, o.device) then o
      else Slot(dev, MergedMode(o, dev, grants))
  }

  /** Whether the merge of one device calls for all Dell fans. */
  predicate CallsDell(prior: Option<Slot>, dev: Device, p: Policy) {
    && prior.Some? && Replaces(p, dev, prior.value.device) && dev.kind == Dell
    && (prior.value.mode == Some(Enabled) || (prior.value.mode == None && !prior.value.device.configured
        && dev.configured))
  }

  /** The device's label does not name different hardware. */
  ghost predicate Unclashing(s: State, dev: Device) {
    dev.name in s.fans ==> s.fans[dev.name].hwId == dev.hwId
  }

  /** Merging the device loses nothing: its label is free or its own, or its match is kept as it is. */
  ghost predicate Harmless(s: State, dev: Device, p: Policy) {
    Unclashing(s, dev) || (HasHw(s.fans, dev.hwId) && !Replaces(p, dev, s.fans[KeyOf(s.fans, dev.hwId)]))
  }

  /** A fan set without the hardware of `dev`, and `dev` under its own label with the given mode. */
  ghost predicate PutsDevice(s: State, dev: Device, t: State, mode: Option<Mode>) {
    && dev.name in t.fans && t.fans[dev.name] == dev && ModeOf(t, dev.name) == mode
    && (forall k :: k in t.fans && k != dev.name ==>
          k in s.fans && t.fans[k] == s.fans[k] && s.fans[k].hwId != dev.hwId)
    && (forall k :: k in s.fans && s.fans[k].hwId != dev.hwId ==>
          k != dev.name && k in t.fans && ModeOf(t, k) == ModeOf(s, k))
  }

  lemma {:induction false} InsertsNew(s: State, dev: Device, p: Policy, grants: set<HwId>)
    requires Inv(s) && Unclashing(s, dev) && !HasHw(s.fans, dev.hwId)
    ensures var (t, dell) := MergeOne(s, dev, p, grants);
            PutsDevice(s, dev, t, None) && !dell
  {
  }

  lemma {:induction false} ReInserts(s: State, prior: Name, dev: Device)
    requires Inv(s) && Unclashing(s, dev) && prior in s.fans && s.fans[prior].hwId == dev.hwId
    ensures PutsDevice(s, dev, ReInsert(DisableOne(s, prior), prior, dev), None)
  {
  }

  lemma {:induction false} PutsMode(s: State, dev: Device, t: State, mode: Mode)
    requires PutsDevice(s, dev, t, None)
    ensures PutsDevice(s, dev, t.(tasks := t.tasks[dev.name := mode]), Some(mode))
  {
  }

  lemma {:induction false} DevicePut(s: State, dev: Device, t: State, mode: Option<Mode>)
    requires PutsDevice(s, dev, t, mode)
    ensures dev.name in t.fans && t.fans[dev.name] == dev && ModeOf(t, dev.name) == mode
  {
  }

  lemma {:induction false} Replacing(s: State, prior: Name, dev: Device, p: Policy, grants: set<HwId>)
    requires Inv(s) && Unclashing(s, dev) && prior in s.fans && s.fans[prior].hwId == dev.hwId
    requires Replaces(p, dev, s.fans[prior])
    ensures var (t, dell) := MergeOne(s, dev, p, grants);
            var o := Slot(s.fans[prior], ModeOf(s, prior));
            && PutsDevice(s, dev, t, MergedMode(o, dev, grants))
            && (dell <==> CallsDell(Some(o), dev, p))
  {
    hide PutsDevice, Inv, ReInsert, Replaces;
    SlotAt(s, prior);
    ReInserts(s, prior, dev);
    var t := ReInsert(DisableOne(s, prior), prior, dev);
    PutsMode(s, dev, t, Enabled);
    PutsMode(s, dev, t, Testing);
    assert t.fans[dev.name] == dev && dev.name !in t.tasks by { DevicePut(s, dev, t, None); }
  }

  lemma {:induction false} Keeping(s: State, dev: Device, p: Policy, grants: set<HwId>)
    requires HasHw(s.fans, dev.hwId) && !Replaces(p, dev, s.fans[KeyOf(s.fans, dev.hwId)])
    ensures MergeOne(s, dev, p, grants) == (s, false)
  {
  }

  lemma {:induction false} PutHardware(s: State, dev: Device, t: State, mode: Option<Mode>, hw: HwId)
    requires PutsDevice(s, dev, t, mode)
    ensures HasHw(t.fans, hw) <==> hw == dev.hwId || HasHw(s.fans, hw)
  {
    assert t.fans[dev.name].hwId == dev.hwId;
    if hw != dev.hwId && HasHw(s.fans, hw) {
      assert KeyOf(s.fans, hw) in t.fans;
    }
  }

  lemma {:induction false} PutEverywhere(s: State, dev: Device, t: State, mode: Option<Mode>)
    requires Inv(s) && Inv(t) && PutsDevice(s, dev, t, mode)
    ensures forall hw :: SlotOf(t, hw) == if hw == dev.hwId then Some(Slot(dev, mode)) else SlotOf(s, hw)
    ensures forall k :: k in t.fans ==> t.fans[k] == dev || (k in s.fans && t.fans[k] == s.fans[k])
  {
    forall hw ensures SlotOf(t, hw) == if hw == dev.hwId then Some(Slot(dev, mode)) else SlotOf(s, hw) {
      if HasHw(t.fans, hw) {
        SlotAt(t, KeyOf(t.fans, hw));
      }
      if HasHw(s.fans, hw) {
        SlotAt(s, KeyOf(s.fans, hw));
      }
      PutHardware(s, dev, t, mode, hw);
    }
  }

  /** One harmless step of a merge: the device's own slot changes as specified, every other slot stays, and no
      label gets other hardware except the device's own. */
  lemma {:induction false} MergeOneSlots(s: State, dev: Device, p: Policy, grants: set<HwId>)
    requires Inv(s) && Harmless(s, dev, p)
    ensures var (t, dell) := MergeOne(s, dev, p, grants);
            && Inv(t)
            && (forall hw :: SlotOf(t, hw) == if hw == dev.hwId then Some(MergedSlot(SlotOf(s, hw), dev, p, grants))
                                              else SlotOf(s, hw))
            && (dell <==> CallsDell(SlotOf(s, dev.hwId), dev, p))
            && (forall k :: k in t.fans ==> t.fans[k] == dev || (k in s.fans && t.fans[k] == s.fans[k]))
  {
    hide MergeOne, PutsDevice, Inv, MergedMode;
    var (t, dell) := MergeOne(s, dev, p, grants);
    MergeOneInv(s, dev, p, grants);
    if !HasHw(s.fans, dev.hwId) {
      InsertsNew(s, dev, p, grants);
      PutEverywhere(s, dev, t, None);
    } else {
      var prior := KeyOf(s.fans, dev.hwId);
      SlotAt(s, prior);
      if Replaces(p, dev, s.fans[prior]) {
        Replacing(s, prior, dev, p, grants);
        PutEverywhere(s, dev, t, MergedMode(Slot(s.fans[prior], ModeOf(s, prior)), dev, grants));
      } else {
        Keeping(s, dev, p, grants);
      }
    }
  }

  /** A label clash loses hardware: after one step the device's hardware is present exactly when its label did
      not name other hardware, or the device matched and was not to be replaced. */
  lemma {:induction false} KeepsHardwareIff(s: State, dev: Device, p: Policy, grants: set<HwId>)
    requires Inv(s)
    ensures HasHw(MergeOne(s, dev, p, grants).0.fans, dev.hwId)
       <==> Harmless(s, dev, p)
  {
    var t := MergeOne(s, dev, p, grants).0;
    if Harmless(s, dev, p) {
      MergeOneSlots(s, dev, p, grants);
      assert SlotOf(t, dev.hwId).Some?;
    } else if HasHw(s.fans, dev.hwId) {
      var prior := KeyOf(s.fans, dev.hwId);
      assert Replaces(p, dev, s.fans[prior]) ==> t.fans == s.fans - {prior};
    }
  }

  /** A source: every device under its own label, hardware ids distinct. */
  ghost predicate Source(devs: seq<Device>) {
    forall i, j :: 0 <= i < j < |devs| ==> devs[i].name != devs[j].name && devs[i].hwId != devs[j].hwId
  }

  ghost predicate NoClash(s: State, devs: seq<Device>, p: Policy) {
    forall i :: 0 <= i < |devs| ==> Harmless(s, devs[i], p)
  }

  /** The source's device for some hardware. */
  function SourceOf(devs: seq<Device>, hw: HwId): (r: Option<Device>)
    ensures r.Some? ==> r.value.hwId == hw && exists i :: 0 <= i < |devs| && devs[i] == r.value
    ensures r.None? ==> forall i :: 0 <= i < |devs| ==> devs[i].hwId != hw
  {
    if devs == [] then None
    else if devs[|devs| - 1].hwId == hw then Some(devs[|devs| - 1])
    else SourceOf(devs[..|devs| - 1], hw)
  }

  ghost function MergedWith(s: State, devs: seq<Device>, p: Policy, grants: set<HwId>, hw: HwId): Option<Slot> {
    match SourceOf(devs, hw)
    case None => SlotOf(s, hw)
    case Some(dev) => Some(MergedSlot(SlotOf(s, hw), dev, p, grants))
  }

  ghost predicate SomeCallsDell(s: State, devs: seq<Device>, p: Policy) {
    exists i :: 0 <= i < |devs| && CallsDell(SlotOf(s, devs[i].hwId), devs[i], p)
  }

  /** Every fan of `t` comes from the source or is as it was in `s`. */
  ghost predicate ComesFrom(s: State, devs: seq<Device>, t: State) {
    forall k :: k in t.fans
        ==> (exists i :: 0 <= i < |devs| && devs[i] == t.fans[k]) || (k in s.fans && t.fans[k] == s.fans[k])
  }

  /** Whether a match is kept is a matter of its slot. */
  lemma {:induction false} SlotHarmless(s: State, t: State, dev: Device, p: Policy)
    requires Inv(s) && Inv(t) && SlotOf(t, dev.hwId) == SlotOf(s, dev.hwId)
    ensures Harmless(s, dev, p) ==> Unclashing(s, dev) || Harmless(t, dev, p)
  {
  }

  lemma {:induction false} StaysUnclashing(s: State, devs: seq<Device>, t: State)
    requires devs != [] && Source(devs) && Unclashing(s, devs[|devs| - 1])
    requires Inv(t) && ComesFrom(s, devs[..|devs| - 1], t)
    ensures Unclashing(t, devs[|devs| - 1])
  {
  }

  lemma {:induction false} NextHarmless(s: State, devs: seq<Device>, p: Policy, t: State)
    requires devs != [] && Source(devs) && NoClash(s, devs, p)
    requires Inv(s) && Inv(t) && ComesFrom(s, devs[..|devs| - 1], t)
    requires var hw := devs[|devs| - 1].hwId; SlotOf(t, hw) == SlotOf(s, hw)
    ensures Harmless(t, devs[|devs| - 1], p)
  {
    hide Inv, Replaces, SlotOf;
    var dev := devs[|devs| - 1];
    SlotHarmless(s, t, dev, p);
    if Unclashing(s, dev) {
      StaysUnclashing(s, devs, t);
    }
  }

  lemma {:induction false} PrefixSource(s: State, devs: seq<Device>, p: Policy)
    requires devs != [] && Source(devs) && NoClash(s, devs, p)
    ensures Source(devs[..|devs| - 1]) && NoClash(s, devs[..|devs| - 1], p)
    ensures SourceOf(devs[..|devs| - 1], devs[|devs| - 1].hwId) == None
  {
  }

  lemma {:induction false} LastCallsDell(s: State, devs: seq<Device>, p: Policy)
    requires devs != []
    ensures var n := |devs| - 1;
            SomeCallsDell(s, devs, p) <==>
            SomeCallsDell(s, devs[..n], p) || CallsDell(SlotOf(s, devs[n].hwId), devs[n], p)
  {
  }

  /** The fold over the whole source: each slot is merged with its own source device, whatever the order. */
  lemma {:induction false} FoldSlots(s: State, devs: seq<Device>, p: Policy, grants: set<HwId>)
    requires Inv(s) && Source(devs) && NoClash(s, devs, p)
    ensures var (t, dell) := MergeFold(s, devs, p, grants);
            && Inv(t) && ComesFrom(s, devs, t)
            && (forall hw :: SlotOf(t, hw) == MergedWith(s, devs, p, grants, hw))
            && (dell <==> SomeCallsDell(s, devs, p))
  {
    hide Inv, Source, NoClash, Harmless, MergeOne, SlotOf, MergedSlot, CallsDell;
    if devs != [] {
      var init, dev := devs[..|devs| - 1], devs[|devs| - 1];
      PrefixSource(s, devs, p);
      FoldSlots(s, init, p, grants);
      var t := MergeFold(s, init, p, grants).0;
      assert SlotOf(t, dev.hwId) == SlotOf(s, dev.hwId);
      NextHarmless(s, devs, p, t);
      MergeOneSlots(t, dev, p, grants);
      LastCallsDell(s, devs, p);
    }
  }

  /** Enabling all Dell fans, slot by slot. */
  function DellSlot(o: Slot, grants: set<HwId>): Slot {
    if o.mode == None && o.device.kind == Dell && Enableable(o.device, grants) then o.(mode := Some(Enabled)) else o
  }

  lemma {:induction false} EnableDellSlots(s: State, grants: set<HwId>, hw: HwId)
    requires Inv(s)
    ensures var t := EnableSet(s, DellNames(s), grants);
            Inv(t) && SlotOf(t, hw) == match SlotOf(s, hw) { case None => None case Some(o) => Some(DellSlot(o,
                grants)) }
  {
    var t := EnableSet(s, DellNames(s), grants);
    EnableSetInv(s, DellNames(s), grants);
    assert HasHw(t.fans, hw) <==> HasHw(s.fans, hw);
    if HasHw(s.fans, hw) {
      var k := KeyOf(s.fans, hw);
      SlotAt(s, k);
      SlotAt(t, k);
    }
  }

  ghost function FinalSlot(s: State, devs: seq<Device>, p: Policy, grants: set<HwId>, hw: HwId): Option<Slot> {
    match MergedWith(s, devs, p, grants, hw)
    case None => None
    case Some(o) => Some(if SomeCallsDell(s, devs, p) then DellSlot(o, grants) else o)
  }

  /** The whole merge, hardware by hardware. */
  lemma {:induction false} MergeSlots(s: State, devs: seq<Device>, p: Policy, grants: set<HwId>)
    requires Inv(s) && Source(devs) && NoClash(s, devs, p)
    ensures var t := Merge(s, devs, p, grants);
            Inv(t) && forall hw :: SlotOf(t, hw) == FinalSlot(s, devs, p, grants, hw)
  {
    hide Inv, Source, NoClash, MergeFold, SlotOf, EnableSet, DellSlot, MergedWith, SomeCallsDell;
    FoldSlots(s, devs, p, grants);
    MergeInv(s, devs, p, grants);
    var t := MergeFold(s, devs, p, grants).0;
    forall hw ensures SlotOf(Merge(s, devs, p, grants), hw) == FinalSlot(s, devs, p, grants, hw) {
      EnableDellSlots(t, grants, hw);
    }
  }

  /** The two sequences are orders of one source. */
  ghost predicate SameDevices(devs: seq<Device>, order: seq<Device>) {
    Source(order) && forall d :: d in devs <==> d in order
  }

  lemma {:induction false} SameSource(s: State, devs: seq<Device>, devs': seq<Device>, p: Policy)
    requires Source(devs) && NoClash(s, devs, p) && SameDevices(devs, devs')
    ensures NoClash(s, devs', p)
    ensures forall hw :: SourceOf(devs, hw) == SourceOf(devs', hw)
    ensures SomeCallsDell(s, devs, p) <==> SomeCallsDell(s, devs', p)
  {
    hide SourceOf, SlotOf, CallsDell;
    assert forall i :: 0 <= i < |devs| ==> devs[i] in devs';
    assert forall i :: 0 <= i < |devs'| ==> devs'[i] in devs;
  }

  /** A merge does not depend on the order in which the hash map yields the source. */
  lemma {:induction false} MergeOrderIrrelevant(s: State, devs: seq<Device>, devs': seq<Device>, p: Policy,
      grants: set<HwId>)
    requires Inv(s) && Source(devs) && NoClash(s, devs, p) && SameDevices(devs, devs')
    ensures Merge(s, devs, p, grants) == Merge(s, devs', p, grants)
  {
    hide Inv, Merge, SlotOf;
    SameSource(s, devs, devs', p);
    MergeSlots(s, devs, p, grants);
    MergeSlots(s, devs', p, grants);
    SlotsDetermine(Merge(s, devs, p, grants), Merge(s, devs', p, grants));
  }

  lemma {:induction false} OwnSource(devs: seq<Device>, i: nat)
    requires Source(devs) && i < |devs|
    ensures SourceOf(devs, devs[i].hwId) == Some(devs[i])
  {
  }

  lemma {:induction false} KeyIsName(s: State, k: Name)
    requires Inv(s) && k in s.fans
    ensures s.fans[k].name == k
  {
  }

  /** A slot's device is stored under its own label. */
  lemma {:induction false} SlotNamed(s: State, hw: HwId)
    requires Inv(s)
    ensures SlotOf(s, hw).Some? ==>
              var o := SlotOf(s, hw).value;
              o.device.name in s.fans && s.fans[o.device.name] == o.device && ModeOf(s, o.device.name) == o.mode
  {
  }

  /** Keyed union: the hardware afterwards is what was there and what the source brings; a source device that
      is new or replaces its match is stored under its own label with its own content, and fans of other
      hardware keep label, content and, unless all Dell fans are enabled, task. */
  lemma {:induction false} MergeIsKeyedUnion(s: State, devs: seq<Device>, p: Policy, grants: set<HwId>, i: nat, k: Name)
    requires Inv(s) && Source(devs) && NoClash(s, devs, p) && i < |devs|
    ensures var t := Merge(s, devs, p, grants);
            && (forall hw :: HasHw(t.fans, hw) <==> HasHw(s.fans, hw) || SourceOf(devs, hw).Some?)
            && (!HasHw(s.fans, devs[i].hwId) || Replaces(p, devs[i], s.fans[KeyOf(s.fans, devs[i].hwId)]) ==>
                  devs[i].name in t.fans && t.fans[devs[i].name] == devs[i])
            && (k in s.fans && (SourceOf(devs, s.fans[k].hwId) == None
                                || !Replaces(p, SourceOf(devs, s.fans[k].hwId).value, s.fans[k])) ==>
                  && k in t.fans && t.fans[k] == s.fans[k]
                  && (ModeOf(t, k) == ModeOf(s, k)
                      || (SomeCallsDell(s, devs, p) && s.fans[k].kind == Dell && ModeOf(s, k) == None)))
  {
    hide Inv, Merge, NoClash, SomeCallsDell, Replaces;
    MergeSlots(s, devs, p, grants);
    var t := Merge(s, devs, p, grants);
    assert forall hw :: HasHw(t.fans, hw) <==> SlotOf(t, hw).Some?;
    assert forall hw :: HasHw(s.fans, hw) <==> SlotOf(s, hw).Some?;
    OwnSource(devs, i);
    SlotNamed(t, devs[i].hwId);
    if k in s.fans {
      SlotAt(s, k);
      SlotNamed(t, s.fans[k].hwId);
      KeyIsName(s, k);
    }
  }

  /** Modes across a rename: a replaced fan that was enabled is enabled under its new label if its
      replacement can be; one being tested is being tested unless it is now ignored; a disabled one that was
      configured before stays disabled unless it is a Dell fan. */
  lemma {:induction false} MergeKeepsModes(s: State, devs: seq<Device>, p: Policy, grants: set<HwId>, i: nat)
    requires Inv(s) && Source(devs) && NoClash(s, devs, p) && i < |devs|
    requires HasHw(s.fans, devs[i].hwId) && Replaces(p, devs[i], s.fans[KeyOf(s.fans, devs[i].hwId)])
    ensures var t := Merge(s, devs, p, grants);
            var dev := devs[i];
            var prior := KeyOf(s.fans, dev.hwId);
            && dev.name in t.fans && t.fans[dev.name] == dev
            && (ModeOf(s, prior) == Some(Enabled) && Enableable(dev, grants) ==> ModeOf(t, dev.name) == Some(Enabled))
            && (ModeOf(s, prior) == Some(Testing) && !dev.ignored ==> ModeOf(t, dev.name) == Some(Testing))
            && (ModeOf(s, prior) == None && s.fans[prior].configured && dev.kind != Dell
                ==> ModeOf(t, dev.name) == None)
  {
    hide Inv, Merge, NoClash, SomeCallsDell, Replaces, Enableable;
    MergeSlots(s, devs, p, grants);
    OwnSource(devs, i);
    SlotNamed(Merge(s, devs, p, grants), devs[i].hwId);
  }

  /** All hardware of the state and of the source is there after the merge. */
  ghost predicate KeepsAll(s: State, devs: seq<Device>, p: Policy, grants: set<HwId>) {
    forall hw :: HasHw(s.fans, hw) || SourceOf(devs, hw).Some? ==> HasHw(Merge(s, devs, p, grants).fans, hw)
  }

  lemma {:induction false} HarmlessKeepsAll(s: State, devs: seq<Device>, p: Policy, grants: set<HwId>)
    requires Inv(s) && Source(devs) && NoClash(s, devs, p)
    ensures KeepsAll(s, devs, p, grants)
  {
    hide Inv, Source, NoClash, Merge, SomeCallsDell, MergedSlot, DellSlot, HasHw;
    MergeSlots(s, devs, p, grants);
    var t := Merge(s, devs, p, grants);
    forall hw ensures HasHw(s.fans, hw) || SourceOf(devs, hw).Some? ==> HasHw(t.fans, hw) {
      assert SlotOf(t, hw) == FinalSlot(s, devs, p, grants, hw);
    }
  }

  lemma {:induction false} NoNewHardware(s: State, dev: Device, p: Policy, grants: set<HwId>, hw: HwId)
    requires hw != dev.hwId && HasHw(MergeOne(s, dev, p, grants).0.fans, hw)
    ensures HasHw(s.fans, hw)
  {
  }

  /** What the first device of an order loses, no later one brings back. */
  lemma {:induction false} StaysLost(s: State, order: seq<Device>, p: Policy, grants: set<HwId>)
    requires Inv(s) && order != [] && Source(order) && !Harmless(s, order[0], p)
    ensures !HasHw(MergeFold(s, order, p, grants).0.fans, order[0].hwId)
    decreases |order|
  {
    hide MergeOne, Inv, HasHw, Harmless;
    var init, dev := order[..|order| - 1], order[|order| - 1];
    var t := MergeFold(s, init, p, grants).0;
    if init == [] {
      assert t == s;
      KeepsHardwareIff(s, dev, p, grants);
    } else {
      StaysLost(s, init, p, grants);
      if HasHw(MergeOne(t, dev, p, grants).0.fans, order[0].hwId) {
        NoNewHardware(t, dev, p, grants, order[0].hwId);
      }
    }
  }

  /** The source with its i-th device first, in exchange. */
  function First(devs: seq<Device>, i: nat): seq<Device>
    requires i < |devs|
  {
    devs[0 := devs[i]][i := devs[0]]
  }

  function Exchange(i: nat, j: nat): nat {
    if j == 0 then i else if j == i then 0 else j
  }

  lemma {:induction false} SameMembers(devs: seq<Device>, order: seq<Device>, i: nat, d: Device)
    requires i < |devs| == |order|
    requires forall j :: 0 <= j < |devs| ==> order[j] == devs[Exchange(i, j)] && devs[j] == order[Exchange(i, j)]
    ensures d in devs <==> d in order
  {
    if j: nat :| j < |devs| && devs[j] == d {
      assert order[Exchange(i, j)] == d;
    }
    if j: nat :| j < |order| && order[j] == d {
      assert devs[Exchange(i, j)] == d;
    }
  }

  lemma {:induction false} ExchangedSource(devs: seq<Device>, order: seq<Device>, i: nat)
    requires i < |devs| == |order| && Source(devs)
    requires forall j :: 0 <= j < |devs| ==> order[j] == devs[Exchange(i, j)]
    ensures Source(order)
  {
    forall j, k | 0 <= j < k < |order| ensures order[j].name != order[k].name && order[j].hwId != order[k].hwId {
      assert Exchange(i, j) != Exchange(i, k);
    }
  }

  lemma {:induction false} FirstSame(devs: seq<Device>, i: nat)
    requires i < |devs| && Source(devs)
    ensures SameDevices(devs, First(devs, i))
  {
    hide Source;
    var order := First(devs, i);
    assert forall j :: 0 <= j < |devs| ==> order[j] == devs[Exchange(i, j)] && devs[j] == order[Exchange(i, j)];
    ExchangedSource(devs, order, i);
    forall d ensures d in devs <==> d in order {
      SameMembers(devs, order, i, d);
    }
  }

  lemma {:induction false} LosesFirst(s: State, order: seq<Device>, p: Policy, grants: set<HwId>)
    requires Inv(s) && order != [] && Source(order) && !Harmless(s, order[0], p)
    ensures !KeepsAll(s, order, p, grants)
  {
    hide Inv, Source, MergeFold, HasHw, Harmless;
    StaysLost(s, order, p, grants);
    OwnSource(order, 0);
  }

  /** Whatever the order in which the hash map yields the source, a merge keeps all hardware, if and only if no
      device clashes: each one's label is free or its own, or its match is kept as it is. */
  lemma {:induction false} NothingLostIff(s: State, devs: seq<Device>, p: Policy, grants: set<HwId>)
    requires Inv(s) && Source(devs)
    ensures (forall order :: SameDevices(devs, order) ==> KeepsAll(s, order, p, grants)) <==> NoClash(s, devs, p)
  {
    hide Inv, Source, Merge, SourceOf, HasHw, Harmless, KeepsAll;
    if NoClash(s, devs, p) {
      forall order | SameDevices(devs, order) ensures KeepsAll(s, order, p, grants) {
        SameSource(s, devs, order, p);
        HarmlessKeepsAll(s, order, p, grants);
      }
    } else {
      var i: nat :| i < |devs| && !Harmless(s, devs[i], p);
      FirstSame(devs, i);
      LosesFirst(s, First(devs, i), p, grants);
    }
  }

  function FanAt(name: Name, hwId: HwId): Device {
    Device(name, hwId, Sys, false, NOTHING_STORED, true, true)
  }

  /** Two configured fans whose labels are exchanged in the configuration: one of them is lost. */
  lemma {:induction false} ExchangeExample(grants: set<HwId>)
    ensures var s := State(map["left" := FanAt("left", "hw1"), "right" := FanAt("right", "hw2")], map[]);
            !HasHw(Merge(s, [FanAt("right", "hw1"), FanAt("left", "hw2")], Policy(true, true), grants).fans, "hw1")
  {
    hide HasHw, MergeFold;
    var s := State(map["left" := FanAt("left", "hw1"), "right" := FanAt("right", "hw2")], map[]);
    var devs := [FanAt("right", "hw1"), FanAt("left", "hw2")];
    assert "hw1" != "hw2" && "left" != "right" by { assert "hw1"[2] != "hw2"[2] && "left"[0] != "right"[0]; }
    assert Inv(s);
    assert s.fans["right"].hwId == "hw2";
    assert forall k :: k in s.fans && s.fans[k].hwId == "hw1" ==> k == "left";
    StaysLost(s, devs, Policy(true, true), grants);
  }
}
