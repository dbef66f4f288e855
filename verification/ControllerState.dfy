/** The controller's devices and tasks, and its operations as functions on them. Each operation is one
    atomic step; `grants` is the set of hardware ids that currently grant control when asked. */
module ControllerState {
  import opened Basics
  import opened FanMessage

  type Name = string
  type HwId = string

  datatype Kind = Sys | Dell | Nvidia

  /** What a fan persists besides its label and whether it is ignored. */
  datatype Stored = Stored(sensor: string, tempToRpm: string, rpmToPwm: string, startPwm: Pwm, interval: nat)

  const NOTHING_STORED := Stored("", "", "", 0, 0)

  /** A fan as the controller sees it. `configured` and `tested` are what `is_configured` and `tested` answer. */
  datatype Device = Device(name: Name, hwId: HwId, kind: Kind, ignored: bool, settings: Stored,
                           configured: bool, tested: bool)

  /** The message the fan writes to the configuration. */
  function Message(f: Device): FanMsg {
    FanMsg(f.name, f.settings.sensor, f.settings.tempToRpm, f.settings.rpmToPwm, f.settings.startPwm,
           f.settings.interval, f.ignored)
  }

  /** A fan's task: updating, or testing. Without a task the fan is disabled. */
  datatype Mode = Enabled | Testing

  datatype State = State(fans: map<Name, Device>, tasks: map<Name, Mode>)

  const EMPTY := State(map[], map[])

  /** Every fan is stored under its own label, every task label is a fan's, hardware ids are distinct. */
  ghost predicate Inv(s: State) {
    && (forall k :: k in s.fans ==> s.fans[k].name == k)
    && (forall k :: k in s.tasks ==> k in s.fans)
    && (forall j, k :: j in s.fans && k in s.fans && s.fans[j].hwId == s.fans[k].hwId ==> j == k)
  }

  /** `try_enable` and `is_configured`. */
  predicate Enableable(f: Device, grants: set<HwId>) {
    !f.ignored && f.hwId in grants && f.configured
  }

  /** `emplace` does not overwrite. */
  function Emplace<V>(m: map<Name, V>, k: Name, v: V): map<Name, V> {
    if k in m then m else m[k := v]
  }

  /** `enable(f, false)`. */
  function EnableOne(s: State, f: Device, grants: set<HwId>): State {
    if f.name in s.tasks || !Enableable(f, grants) then s
    else s.(tasks := s.tasks[f.name := Enabled])
  }

  /** Every named fan that has no task and can be enabled is enabled. */
  function EnableSet(s: State, names: set<Name>, grants: set<HwId>): State {
    s.(tasks := s.tasks +
         map k | k in s.fans && k in names && k !in s.tasks && Enableable(s.fans[k], grants) :: Enabled)
  }

  /** `enable_all`. */
  function EnableAll(s: State, grants: set<HwId>): State {
    EnableSet(s, s.fans.Keys, grants)
  }

  function DellNames(s: State): set<Name> {
    set k | k in s.fans && s.fans[k].kind == Dell
  }

  /** `enable(f)`: Dell fans are enabled together. */
  function Enable(s: State, f: Device, grants: set<HwId>): State {
    if f.name in s.tasks || !Enableable(f, grants) then s
    else
      var t := if f.kind == Dell then EnableSet(s, DellNames(s) - {f.name}, grants) else s;
      t.(tasks := Emplace(t.tasks, f.name, Enabled))
  }

  /** `disable(k, false)`. */
  function DisableOne(s: State, k: Name): State {
    s.(tasks := s.tasks - {k})
  }

  /** `disable(k)`: a running Dell fan takes all Dell fans with it. */
  function Disable(s: State, k: Name): State {
    if k in s.tasks then
      s.(tasks := s.tasks - {k} - if k in DellNames(s) then DellNames(s) else {})
    else s
  }

  function DisableAll(s: State): State {
    s.(tasks := map[])
  }

  /** `test`: joins a running test, replaces any other task. */
  function StartTest(s: State, f: Device, forced: bool): State {
    if f.ignored || (f.tested && !forced) then s
    else if f.name in s.tasks && s.tasks[f.name] == Testing then s
    else s.(tasks := s.tasks[f.name := Testing])
  }

  /** The end of a test: the fan's calibration has changed, its task goes, and it is enabled. */
  function FinishTest(s: State, k: Name, settings: Stored, tested: bool, grants: set<HwId>): State {
    if k in s.fans && k in s.tasks && s.tasks[k] == Testing then
      var f := s.fans[k].(settings := settings, tested := tested);
      Enable(DisableOne(s.(fans := s.fans[k := f]), k), f, grants)
    else s
  }

  /** `remove_devices_not_in`, as a filter on the labels: a removed Dell fan that was running takes the
      tasks of all Dell fans with it. */
  function RemoveNotIn(s: State, keep: set<Name>): State {
    var dell := exists k :: k in s.tasks && k !in keep && k in DellNames(s);
    State(map k | k in s.fans && k in keep :: s.fans[k],
          map k | k in s.tasks && k in keep && !(dell && k in DellNames(s)) :: s.tasks[k])
  }

  /** The fan that `find_if` finds by hardware id. */
  ghost predicate HasHw(fans: map<Name, Device>, hw: HwId) {
    exists k :: k in fans && fans[k].hwId == hw
  }

  ghost function KeyOf(fans: map<Name, Device>, hw: HwId): (k: Name)
    requires HasHw(fans, hw)
    ensures k in fans && fans[k].hwId == hw
  {
    var k :| k in fans && fans[k].hwId == hw;
    k
  }

  /** `deep_equal`: the persisted messages agree. */
  predicate DeepEqual(f: Device, g: Device) {
    f.kind == g.kind && Message(f) == Message(g)
  }

  /** How a merge treats a matching device. */
  datatype Policy = Policy(replace: bool, deep: bool)

  predicate Replaces(p: Policy, dev: Device, prior: Device) {
    p.replace && (!p.deep || !DeepEqual(dev, prior))
  }

  /** `re_insert`: the old entry goes; the new one is not placed if its label is taken. */
  function ReInsert(s: State, prior: Name, dev: Device): State {
    s.(fans := Emplace(s.fans - {prior}, dev.name, dev))
  }

  /** One device of a merge: the new state, and whether `enable_fan` was called on a Dell fan. After a label
      clash the fan enabled or tested is the one found under the label. */
  ghost function MergeOne(s: State, dev: Device, p: Policy, grants: set<HwId>): (State, bool) {
    if !HasHw(s.fans, dev.hwId) then (s.(fans := Emplace(s.fans, dev.name, dev)), false)
    else
      var prior := KeyOf(s.fans, dev.hwId);
      if !Replaces(p, dev, s.fans[prior]) then (s, false)
      else
        var mode := if prior in s.tasks then Some(s.tasks[prior]) else None;
        var t := ReInsert(DisableOne(s, prior), prior, dev);
        var f := t.fans[dev.name];
        match mode
        case None =>
          if !s.fans[prior].configured && f.configured then (EnableOne(t, f, grants), f.kind == Dell) else (t, false)
        case Some(m) =>
          if m == Enabled then (EnableOne(t, f, grants), f.kind == Dell) else (StartTest(t, f, true), false)
  }

  /** The devices of a source in the order its hash map yields them. */
  ghost function MergeFold(s: State, devs: seq<Device>, p: Policy, grants: set<HwId>): (State, bool) {
    if devs == [] then (s, false)
    else
      var (t, dell) := MergeFold(s, devs[..|devs| - 1], p, grants);
      var (u, d) := MergeOne(t, devs[|devs| - 1], p, grants);
      (u, dell || d)
  }

  /** `merge` on the fans. */
  ghost function Merge(s: State, devs: seq<Device>, p: Policy, grants: set<HwId>): State {
    var (t, dell) := MergeFold(s, devs, p, grants);
    if dell then EnableSet(t, DellNames(t), grants) else t
  }

  function Names(devs: seq<Device>): set<Name> {
    set i | 0 <= i < |devs| :: devs[i].name
  }

  /** `reload`: enumerated devices never replace, configured ones replace what they differ from. */
  ghost function Reload(s: State, enumerated: seq<Device>, config: Option<seq<Device>>, grants: set<HwId>): State {
    var t := Merge(s, enumerated, Policy(false, false), grants);
    match config
    case Some(devs) => RemoveNotIn(Merge(t, devs, Policy(true, true), grants), Names(enumerated) + Names(devs))
    case None => RemoveNotIn(t, Names(enumerated))
  }

  lemma {:induction false} EnableSetInv(s: State, names: set<Name>, grants: set<HwId>)
    requires Inv(s)
    ensures Inv(EnableSet(s, names, grants))
  {
  }

  lemma {:induction false} EnableOneInv(s: State, f: Device, grants: set<HwId>)
    requires Inv(s) && f.name in s.fans
    ensures Inv(EnableOne(s, f, grants))
  {
  }

  lemma {:induction false} EnableInv(s: State, f: Device, grants: set<HwId>)
    requires Inv(s) && f.name in s.fans
    ensures Inv(Enable(s, f, grants))
  {
  }

  lemma {:induction false} ReInsertInv(s: State, prior: Name, dev: Device)
    requires Inv(s) && prior in s.fans && s.fans[prior].hwId == dev.hwId
    ensures var t := ReInsert(DisableOne(s, prior), prior, dev);
            Inv(t) && dev.name in t.fans
  {
  }

  lemma {:induction false} MergeOneInv(s: State, dev: Device, p: Policy, grants: set<HwId>)
    requires Inv(s)
    ensures Inv(MergeOne(s, dev, p, grants).0)
  {
    if HasHw(s.fans, dev.hwId) {
      var prior := KeyOf(s.fans, dev.hwId);
      if Replaces(p, dev, s.fans[prior]) {
        var t := ReInsert(DisableOne(s, prior), prior, dev);
        ReInsertInv(s, prior, dev);
        EnableOneInv(t, t.fans[dev.name], grants);
      }
    }
  }

  lemma {:induction false} MergeFoldInv(s: State, devs: seq<Device>, p: Policy, grants: set<HwId>)
    requires Inv(s)
    ensures Inv(MergeFold(s, devs, p, grants).0)
  {
    hide MergeOne, Inv;
    if devs != [] {
      var init := devs[..|devs| - 1];
      MergeFoldInv(s, init, p, grants);
      MergeOneInv(MergeFold(s, init, p, grants).0, devs[|devs| - 1], p, grants);
    }
  }

  lemma {:induction false} MergeInv(s: State, devs: seq<Device>, p: Policy, grants: set<HwId>)
    requires Inv(s)
    ensures Inv(Merge(s, devs, p, grants))
  {
    hide MergeFold, EnableSet, Inv;
    MergeFoldInv(s, devs, p, grants);
    var t := MergeFold(s, devs, p, grants).0;
    EnableSetInv(t, DellNames(t), grants);
  }

  lemma {:induction false} RemoveInv(s: State, keep: set<Name>)
    requires Inv(s)
    ensures Inv(RemoveNotIn(s, keep))
  {
  }

  lemma {:induction false} ReloadInv(s: State, enumerated: seq<Device>, config: Option<seq<Device>>, grants: set<HwId>)
    requires Inv(s)
    ensures Inv(Reload(s, enumerated, config, grants))
  {
    hide Merge, RemoveNotIn, Inv;
    var t := Merge(s, enumerated, Policy(false, false), grants);
    MergeInv(s, enumerated, Policy(false, false), grants);
    match config
    case Some(devs) =>
      MergeInv(t, devs, Policy(true, true), grants);
      RemoveInv(Merge(t, devs, Policy(true, true), grants), Names(enumerated) + Names(devs));
    case None =>
      RemoveInv(t, Names(enumerated));
  }

  lemma {:induction false} FinishTestInv(s: State, k: Name, settings: Stored, tested: bool, grants: set<HwId>)
    requires Inv(s)
    ensures Inv(FinishTest(s, k, settings, tested, grants))
  {
    hide Enable;
    if k in s.fans && k in s.tasks && s.tasks[k] == Testing {
      var f := s.fans[k].(settings := settings, tested := tested);
      EnableInv(DisableOne(s.(fans := s.fans[k := f]), k), f, grants);
    }
  }
}
