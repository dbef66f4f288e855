/** The controller object: its methods insert into and erase from `tasks` and `fans` while looping over
    them. Loops over a hash map take the keys in an arbitrary order. */
module Controller {
  import opened Basics
  import opened ControllerState
  import Devices
  import ControllerRuns

  lemma {:induction false} EnableSetStep(s: State, done: set<Name>, k: Name, grants: set<HwId>)
    requires k in s.fans && s.fans[k].name == k
    ensures EnableSet(s, done + {k}, grants) == EnableOne(EnableSet(s, done, grants), s.fans[k], grants)
  {
  }

  lemma {:induction false} EnableSetNone(s: State, grants: set<HwId>)
    ensures EnableSet(s, {}, grants) == s
  {
  }

  /** Taking a key out of what remains of a loop. */
  lemma {:induction false} TakeOut(names: set<Name>, todo: set<Name>, k: Name)
    requires k in todo && todo <= names
    ensures names - (todo - {k}) == (names - todo) + {k}
  {
  }

  lemma {:induction false} MinusMore<V>(m: map<Name, V>, names: set<Name>, k: Name)
    ensures m - names - {k} == m - (names + {k})
  {
  }

  function WithoutFan(s: State, k: Name): State {
    s.(fans := s.fans - {k})
  }

  lemma {:induction false} KeepLess(keep: set<Name>, todo: set<Name>, k: Name)
    requires k in todo && todo !! keep
    ensures keep + todo - {k} == keep + (todo - {k})
  {
  }

  /** Disabling a fan and erasing it is filtering it out as well. */
  lemma {:induction false} RemoveStep(s: State, keep: set<Name>, k: Name)
    requires k in s.fans && k in keep
    ensures RemoveNotIn(s, keep - {k}) == WithoutFan(Disable(RemoveNotIn(s, keep), k), k)
  {
  }

  lemma {:induction false} RemoveNothingYet(s: State, keep: set<Name>)
    requires Inv(s) && s.fans.Keys <= keep
    ensures RemoveNotIn(s, keep) == s
  {
  }

  class Controller {
    var fans: map<Name, Device>
    var tasks: map<Name, Mode>

    function State(): ControllerState.State
      reads this
    {
      ControllerState.State(fans, tasks)
    }

    constructor ()
      ensures State() == EMPTY
    {
      fans, tasks := map[], map[];
    }

    /** The loop over the fans selected, in any order. */
    method EnableEach(names: set<Name>, grants: set<HwId>)
      requires Inv(State()) && names <= fans.Keys
      modifies this`tasks
      ensures State() == EnableSet(old(State()), names, grants)
      ensures Inv(State())
      decreases 1, 0
    {
      hide EnableSet, EnableOne, ControllerState.Enable;
      ghost var s := State();
      var todo := names;
      EnableSetNone(s, grants);
      assert names - names == {};
      while todo != {}
        invariant todo <= names && fans == s.fans
        invariant State() == EnableSet(s, names - todo, grants)
        invariant Inv(State())
        decreases todo
      {
        var k :| k in todo;
        EnableSetStep(s, names - todo, k, grants);
        TakeOut(names, todo, k);
        Enable(k, false, grants);
        todo := todo - {k};
      }
      assert names - {} == names;
    }

    method EnableDellFans(except: Option<Name>, grants: set<HwId>)
      requires Inv(State())
      modifies this`tasks
      ensures State() == EnableSet(old(State()),
          DellNames(old(State())) - (if except.Some? then {except.value} else {}), grants)
      ensures Inv(State())
      decreases 1
    {
      ghost var s := State();
      var names := (set k | k in fans && fans[k].kind == Dell) - if except.Some? then {except.value} else {};
      EnableEach(names, grants);
    }

    /** Enables the fan stored under `k`. */
    method Enable(k: Name, allDell: bool, grants: set<HwId>)
      requires k in fans && fans[k].name == k && Inv(State())
      modifies this`tasks
      ensures State() == if allDell then ControllerState.Enable(old(State()), fans[k], grants)
                         else EnableOne(old(State()), fans[k], grants)
      ensures Inv(State())
      decreases if allDell then 2 else 0
    {
      EnableInv(State(), fans[k], grants);
      EnableOneInv(State(), fans[k], grants);
      var f := fans[k];
      if f.name in tasks || !Enableable(f, grants) {
        return;
      }
      if f.kind == Dell && allDell {
        EnableDellFans(Some(f.name), grants);
      }
      tasks := Emplace(tasks, f.name, Enabled);
    }

    method EnableAll(grants: set<HwId>)
      requires Inv(State())
      modifies this`tasks
      ensures State() == ControllerState.EnableAll(old(State()), grants) && Inv(State())
    {
      EnableEach(fans.Keys, grants);
    }

    method Disable(k: Name, allDell: bool)
      modifies this`tasks
      ensures State() == if allDell then ControllerState.Disable(old(State()), k) else DisableOne(old(State()), k)
      decreases if allDell then 2 else 0
    {
      if k !in tasks {
        return;
      }
      tasks := tasks - {k};
      if k in fans {
        if fans[k].kind == Dell && allDell {
          DisableDellFans(k);
        }
      }
    }

    method DisableDellFans(except: Name)
      modifies this`tasks
      ensures State() == old(State()).(tasks := old(tasks) - (DellNames(old(State())) - {except}))
      decreases 1
    {
      ghost var before := tasks;
      var names := (set k | k in fans && fans[k].kind == Dell) - {except};
      var todo := names;
      while todo != {}
        invariant todo <= names && fans == old(fans)
        invariant tasks == before - (names - todo)
        decreases todo
      {
        var k :| k in todo;
        TakeOut(names, todo, k);
        MinusMore(before, names - todo, k);
        Disable(k, false);
        todo := todo - {k};
      }
      assert names - {} == names;
    }

    method DisableAll()
      modifies this`tasks
      ensures State() == ControllerState.DisableAll(old(State()))
    {
      var names := tasks.Keys;
      ghost var before := tasks;
      var todo := names;
      while todo != {}
        invariant todo <= names && fans == old(fans)
        invariant tasks == before - (names - todo)
        decreases todo
      {
        var k :| k in todo;
        TakeOut(names, todo, k);
        MinusMore(before, names - todo, k);
        Disable(k, false);
        todo := todo - {k};
      }
      assert before - (names - {}) == map[];
    }

    method Test(k: Name, forced: bool)
      requires k in fans && fans[k].name == k
      modifies this`tasks
      ensures State() == StartTest(old(State()), fans[k], forced)
    {
      var f := fans[k];
      if f.ignored || (f.tested && !forced) {
        return;
      }
      if f.name in tasks && tasks[f.name] == Testing {
        return;
      }
      tasks := tasks - {f.name};
      tasks := tasks[f.name := Testing];
    }

    /** The end of the test task of `k`, with the settings and test state it left. */
    method FinishTest(k: Name, settings: Stored, tested: bool, grants: set<HwId>)
      requires Inv(State()) && k in fans && k in tasks && tasks[k] == Testing
      modifies this
      ensures State() == ControllerState.FinishTest(old(State()), k, settings, tested, grants)
      ensures Inv(State())
    {
      FinishTestInv(State(), k, settings, tested, grants);
      fans := fans[k := fans[k].(settings := settings, tested := tested)];
      tasks := tasks - {k};
      Enable(k, true, grants);
    }

    /** One device of a merge; the result says whether a Dell fan was enabled. */
    method MergeDevice(dev: Device, p: Policy, grants: set<HwId>) returns (dell: bool)
      requires Inv(State())
      modifies this
      ensures (State(), dell) == MergeOne(old(State()), dev, p, grants)
      ensures Inv(State())
    {
      hide EnableSet, ControllerState.Enable;
      ghost var s := State();
      MergeOneInv(s, dev, p, grants);
      dell := false;
      if k :| k in fans && fans[k].hwId == dev.hwId {
        assert k == KeyOf(s.fans, dev.hwId);
        if p.replace && (!p.deep || !DeepEqual(dev, fans[k])) {
          var mode := if k in tasks then Some(tasks[k]) else None;
          var configured := fans[k].configured;
          ReInsertInv(s, k, dev);
          Disable(k, false);
          fans := Emplace(fans - {k}, dev.name, dev);
          assert State() == ReInsert(DisableOne(s, k), k, dev);
          if mode == None {
            if !configured && fans[dev.name].configured {
              Enable(dev.name, false, grants);
              dell := fans[dev.name].kind == Dell;
            }
          } else if mode == Some(Enabled) {
            Enable(dev.name, false, grants);
            dell := fans[dev.name].kind == Dell;
          } else {
            Test(dev.name, true);
          }
        }
      } else {
        fans := Emplace(fans, dev.name, dev);
      }
    }

    /** `devs` are the source's devices in the order its hash map yields them. */
    method Merge(devs: seq<Device>, p: Policy, grants: set<HwId>)
      requires Inv(State())
      modifies this
      ensures State() == ControllerState.Merge(old(State()), devs, p, grants)
      ensures Inv(State())
    {
      hide MergeOne, Inv, EnableSet;
      ghost var s := State();
      var dell := false;
      for i := 0 to |devs|
        invariant (State(), dell) == MergeFold(s, devs[..i], p, grants)
        invariant Inv(State())
      {
        assert devs[..i + 1][..i] == devs[..i];
        var d := MergeDevice(devs[i], p, grants);
        dell := dell || d;
      }
      assert devs[..|devs|] == devs;
      if dell {
        assert DellNames(State()) - {} == DellNames(State());
        EnableDellFans(None, grants);
      }
    }

    method RemoveDevice(k: Name)
      modifies this
      ensures State() == WithoutFan(ControllerState.Disable(old(State()), k), k)
    {
      Disable(k, true);
      fans := fans - {k};
    }

    method RemoveDevicesNotIn(keep: set<Name>)
      requires Inv(State())
      modifies this
      ensures State() == RemoveNotIn(old(State()), keep)
      ensures Inv(State())
    {
      hide Inv, RemoveNotIn, ControllerState.Disable, WithoutFan;
      ghost var s := State();
      RemoveInv(s, keep);
      var todo := fans.Keys - keep;
      ghost var kept := keep + todo;
      RemoveNothingYet(s, kept);
      while todo != {}
        invariant todo <= s.fans.Keys && todo !! keep && kept == keep + todo
        invariant State() == RemoveNotIn(s, kept)
        decreases todo
      {
        var k :| k in todo;
        RemoveStep(s, kept, k);
        KeepLess(keep, todo, k);
        RemoveDevice(k);
        kept := kept - {k};
        todo := todo - {k};
      }
      assert kept == keep;
    }

    method Reload(enumerated: seq<Device>, config: Option<seq<Device>>, grants: set<HwId>)
      requires Inv(State())
      modifies this
      ensures State() == ControllerState.Reload(old(State()), enumerated, config, grants)
      ensures Inv(State())
    {
      hide ControllerState.Merge, RemoveNotIn, Inv;
      Merge(enumerated, Policy(false, false), grants);
      if config.Some? {
        Merge(config.value, Policy(true, true), grants);
        RemoveDevicesNotIn(Names(enumerated) + Names(config.value));
      } else {
        RemoveDevicesNotIn(Names(enumerated));
      }
    }

    method SetDevices(entries: seq<Devices.Entry>, sensorIds: set<HwId>, grants: set<HwId>)
      modifies this
      ensures State() == ControllerRuns.SetAll(entries, sensorIds, grants)
      ensures Inv(State())
    {
      hide EnableSet;
      DisableAll();
      Devices.LoadedInv(entries, sensorIds);
      fans := Devices.LoadFans(entries, sensorIds);
      assert tasks == map[];
      EnableAll(grants);
    }
  }
}
