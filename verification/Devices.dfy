/** `Devices::from` for the fans: the configured fans, without duplicate hardware. */
module Devices {
  import opened Basics
  import opened ControllerState

  /** A fan entry of the configuration: whether its type is supported by the build, whether the device it
      names is valid, and the device. */
  datatype Entry = Entry(supported: bool, valid: bool, device: Device)

  datatype Loaded = Loaded(fans: map<Name, Device>, uids: set<HwId>)

  function Load(l: Loaded, e: Entry): Loaded {
    if e.supported && e.valid && e.device.hwId !in l.uids then
      Loaded(l.fans[e.device.name := e.device], l.uids + {e.device.hwId})
    else l
  }

  /** `sensorIds` are the hardware ids already taken by the configured sensors. */
  function FromConfig(entries: seq<Entry>, sensorIds: set<HwId>): Loaded {
    if entries == [] then Loaded(map[], sensorIds)
    else Load(FromConfig(entries[..|entries| - 1], sensorIds), entries[|entries| - 1])
  }

  /** An entry is taken if it is usable and its hardware belongs to no sensor and no earlier usable entry. */
  ghost predicate Taken(entries: seq<Entry>, sensorIds: set<HwId>, i: nat)
    requires i < |entries|
  {
    && entries[i].supported && entries[i].valid && entries[i].device.hwId !in sensorIds
    && forall j :: 0 <= j < i && entries[j].supported && entries[j].valid ==>
                     entries[j].device.hwId != entries[i].device.hwId
  }

  /** The entry that defines a label: the last one taken under it. */
  ghost predicate Defines(entries: seq<Entry>, sensorIds: set<HwId>, i: nat, k: Name)
    requires i < |entries|
  {
    && Taken(entries, sensorIds, i) && entries[i].device.name == k
    && forall j :: i < j < |entries| && Taken(entries, sensorIds, j) ==> entries[j].device.name != k
  }

  lemma {:induction false} TakenPrefix(entries: seq<Entry>, sensorIds: set<HwId>, i: nat)
    requires i + 1 < |entries|
    ensures Taken(entries[..|entries| - 1], sensorIds, i) <==> Taken(entries, sensorIds, i)
  {
  }

  /** The ids recorded are the sensors' and those of the usable entries. */
  lemma {:induction false} Uids(entries: seq<Entry>, sensorIds: set<HwId>, hw: HwId)
    ensures hw in FromConfig(entries, sensorIds).uids <==>
            hw in sensorIds ||
            exists i :: 0 <= i < |entries| && entries[i].supported && entries[i].valid && entries[i].device.hwId == hw
  {
    if entries != [] {
      var n := |entries| - 1;
      Uids(entries[..n], sensorIds, hw);
      assert forall i :: 0 <= i < n ==> entries[..n][i] == entries[i];
    }
  }

  lemma {:induction false} LastTaken(entries: seq<Entry>, sensorIds: set<HwId>)
    requires entries != []
    ensures var n := |entries| - 1;
            Taken(entries, sensorIds, n) <==>
            entries[n].supported && entries[n].valid
                && entries[n].device.hwId !in FromConfig(entries[..n], sensorIds).uids
  {
    var n := |entries| - 1;
    Uids(entries[..n], sensorIds, entries[n].device.hwId);
    assert forall i :: 0 <= i < n ==> entries[..n][i] == entries[i];
  }

  lemma {:induction false} DefinesPrefix(entries: seq<Entry>, sensorIds: set<HwId>, k: Name)
    requires entries != []
    ensures var n := |entries| - 1;
            forall i :: 0 <= i < n ==>
              (Defines(entries, sensorIds, i, k) <==>
               Defines(entries[..n], sensorIds, i, k) && !(Taken(entries, sensorIds, n) && entries[n].device.name == k))
  {
  }

  /** A label is present exactly when some entry defines it, with that entry's device. */
  lemma {:induction false} LoadedIff(entries: seq<Entry>, sensorIds: set<HwId>, k: Name, d: Device)
    ensures (k in FromConfig(entries, sensorIds).fans && FromConfig(entries, sensorIds).fans[k] == d)
       <==> exists i :: 0 <= i < |entries| && Defines(entries, sensorIds, i, k) && entries[i].device == d
  {
    if entries != [] {
      var n := |entries| - 1;
      var init := entries[..n];
      LoadedIff(init, sensorIds, k, d);
      Uids(init, sensorIds, entries[n].device.hwId);
      forall i | 0 <= i < n ensures Taken(init, sensorIds, i) <==> Taken(entries, sensorIds, i) {
        TakenPrefix(entries, sensorIds, i);
      }
      assert forall i :: 0 <= i < n ==> init[i] == entries[i];
      LastTaken(entries, sensorIds);
      DefinesPrefix(entries, sensorIds, k);
      if Taken(entries, sensorIds, n) && entries[n].device.name == k {
        assert Defines(entries, sensorIds, n, k);
      }
    }
  }

  /** The fans loaded are stored under their own labels and have distinct hardware, none a sensor's. */
  lemma {:induction false} LoadedInv(entries: seq<Entry>, sensorIds: set<HwId>)
    ensures var l := FromConfig(entries, sensorIds);
            && Inv(State(l.fans, map[]))
            && (forall k :: k in l.fans ==> l.fans[k].hwId in l.uids && l.fans[k].hwId !in sensorIds)
            && sensorIds <= l.uids
  {
    if entries != [] {
      LoadedInv(entries[..|entries| - 1], sensorIds);
    }
  }

  /** The loop over the configuration's fans. */
  method LoadFans(entries: seq<Entry>, sensorIds: set<HwId>) returns (fans: map<Name, Device>)
    ensures fans == FromConfig(entries, sensorIds).fans
  {
    fans := map[];
    var uids := sensorIds;
    for i := 0 to |entries|
      invariant Loaded(fans, uids) == FromConfig(entries[..i], sensorIds)
    {
      assert entries[..i + 1][..i] == entries[..i];
      var e := entries[i];
      if e.supported && e.valid {
        if e.device.hwId !in uids {
          uids := uids + {e.device.hwId};
          fans := fans[e.device.name := e.device];
        }
      }
    }
    assert entries[..|entries|] == entries;
  }
}
