/** What each operation does to every fan's task, said of the fans' own fields and the hardware's grants. */
module Tasks {
  import opened Basics
  import opened ControllerState
  import opened ControllerRuns
  import opened Merging
  import Devices

  /** The fan may run: it is not ignored, it has a curve and a sensor, and its hardware grants control. */
  predicate MayRun(f: Device, grants: set<HwId>) {
    !f.ignored && f.configured && f.hwId in grants
  }

  /** A Dell fan without a task that may run. */
  predicate DellReady(s: State, j: Name, grants: set<HwId>) {
    j in s.fans && s.fans[j].kind == Dell && ModeOf(s, j) == None && MayRun(s.fans[j], grants)
  }

  /** Enabling a fan starts it exactly if it has no task and may run, and with a Dell fan every other one that is
      ready; no other task changes. */
  lemma {:induction false} EnableFanIff(s: State, k: Name, grants: set<HwId>)
    requires Inv(s) && k in s.fans
    ensures var t := Apply(s, EnableFan(k, grants));
            var starts := ModeOf(s, k) == None && MayRun(s.fans[k], grants);
            && t.fans == s.fans
            && (ModeOf(t, k) == Some(Enabled) <==> ModeOf(s, k) == Some(Enabled) || starts)
            && forall j :: ModeOf(t, j) ==
                 if starts && (j == k || (s.fans[k].kind == Dell && DellReady(s, j, grants))) then Some(Enabled)
                 else ModeOf(s, j)
  {
  }

  lemma {:induction false} DisableFanIff(s: State, k: Name)
    requires Inv(s) && k in s.fans
    ensures var t := Apply(s, DisableFan(k));
            && t.fans == s.fans
            && forall j :: ModeOf(t, j) ==
                 if j == k || (ModeOf(s, k).Some? && s.fans[k].kind == Dell && j in s.fans && s.fans[j].kind == Dell)
                 then None else ModeOf(s, j)
  {
  }

  /** A test is under way afterwards exactly if it was before, or the fan is not ignored and was not tested yet or
      the test is forced; it takes the place of any other task of the fan. */
  lemma {:induction false} TestFanIff(s: State, k: Name, forced: bool)
    requires Inv(s) && k in s.fans
    ensures var t := Apply(s, TestFan(k, forced));
            && t.fans == s.fans
            && ModeOf(t, k) == (if !s.fans[k].ignored && (forced || !s.fans[k].tested) then Some(Testing)
                                else ModeOf(s, k))
            && forall j :: j != k ==> ModeOf(t, j) == ModeOf(s, j)
  {
  }

  lemma {:induction false} TestOver(s: State, k: Name, g: Device)
    requires Inv(s) && k in s.fans && g == s.fans[k].(settings := g.settings, tested := g.tested)
    ensures Inv(DisableOne(s.(fans := s.fans[k := g]), k))
  {
  }

  /** The end of a test leaves what it learnt in the fan and nothing else, ends its task and enables the fan as
      above; without a test under way nothing happens. */
  lemma {:induction false} TestFinishedIff(s: State, k: Name, settings: Stored, tested: bool, grants: set<HwId>)
    requires Inv(s) && k in s.fans && ModeOf(s, k) == Some(Testing)
    ensures var t := Apply(s, TestFinished(k, settings, tested, grants));
            var f := s.fans[k];
            && t.fans == s.fans[k := Device(f.name, f.hwId, f.kind, f.ignored, settings, f.configured, tested)]
            && ModeOf(t, k) == (if MayRun(f, grants) then Some(Enabled) else None)
            && forall j :: j != k ==>
                 ModeOf(t, j) == if MayRun(f, grants) && f.kind == Dell && DellReady(s, j, grants) then Some(Enabled)
                                 else ModeOf(s, j)
  {
    hide Enable, Inv;
    var f := s.fans[k];
    var g := f.(settings := settings, tested := tested);
    var u := DisableOne(s.(fans := s.fans[k := g]), k);
    TestOver(s, k, g);
    EnableFanIff(u, k, grants);
    assert Apply(u, EnableFan(k, grants)) == Enable(u, g, grants);
    forall j | j != k ensures ModeOf(u, j) == ModeOf(s, j) && (DellReady(u, j, grants) <==> DellReady(s, j, grants)) {
    }
  }

  lemma {:induction false} NoTestToFinish(s: State, k: Name, settings: Stored, tested: bool, grants: set<HwId>)
    requires Inv(s) && ModeOf(s, k) != Some(Testing)
    ensures Apply(s, TestFinished(k, settings, tested, grants)) == s
  {
  }

  lemma {:induction false} EnableAllIff(s: State, grants: set<HwId>)
    ensures var t := Apply(s, EnableAllFans(grants));
            && t.fans == s.fans
            && forall j :: ModeOf(t, j) ==
                 if j in s.fans && ModeOf(s, j) == None && MayRun(s.fans[j], grants) then Some(Enabled)
                 else ModeOf(s, j)
  {
  }

  lemma {:induction false} DisableAllIff(s: State)
    ensures var t := Apply(s, DisableAllFans);
            t.fans == s.fans && forall j :: ModeOf(t, j) == None
  {
  }

  /** Setting the devices drops every task and every fan, and enables each configured one that may run. */
  lemma {:induction false} SetDevicesIff(s: State, entries: seq<Devices.Entry>, sensorIds: set<HwId>,
      grants: set<HwId>)
    ensures var t := Apply(s, SetDevices(entries, sensorIds, grants));
            && t.fans == Devices.FromConfig(entries, sensorIds).fans
            && forall j :: ModeOf(t, j) ==
                 if j in t.fans && MayRun(t.fans[j], grants) then Some(Enabled) else None
  {
  }

  /** Removing devices keeps exactly the named fans as they are, and their tasks, unless a running Dell fan is
      removed: then every Dell fan loses its task. */
  lemma {:induction false} RemoveDevicesIff(s: State, keep: set<Name>)
    requires Inv(s)
    ensures var t := Apply(s, RemoveDevices(keep));
            var group := exists k :: k in s.fans && k !in keep && s.fans[k].kind == Dell && ModeOf(s, k).Some?;
            && (forall j :: j in t.fans <==> j in s.fans && j in keep)
            && (forall j :: j in t.fans ==> t.fans[j] == s.fans[j])
            && forall j :: ModeOf(t, j) ==
                 if j in t.fans && !(group && t.fans[j].kind == Dell) then ModeOf(s, j) else None
  {
  }
}
