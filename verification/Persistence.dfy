/** The controller's devices and the fans' settings: a device stands for a fan when it persists that fan's message. */
module Persistence {
  import opened Basics
  import opened ControllerState
  import opened FanConfig
  import opened MergedFans
  import opened Merging

  ghost predicate StandsFor(d: Device, f: Settings) {
    Message(d) == To(f)
  }

  lemma {:induction false} SameMessageIff(d: Device, e: Device)
    ensures SameMessage(d, e) <==> d.kind == e.kind && Message(d) == Message(e)
  {
  }

  /** The deep comparison of a merge, on the fans themselves: the stored fan stays exactly if it and the configured
      one agree in every setting, sensors by label; any edit replaces it. */
  lemma {:induction false} EditArrives(s: State, devs: seq<Device>, grants: set<HwId>, i: nat, k: Name,
      f: Settings, g: Settings)
    requires Inv(s) && Source(devs) && LabelsFree(s, devs)
    requires i < |devs| && k in s.fans && s.fans[k].hwId == devs[i].hwId && s.fans[k].kind == devs[i].kind
    requires StandsFor(s.fans[k], f) && StandsFor(devs[i], g)
    ensures var t := Merge(s, devs, Policy(true, true), grants);
            if f.(sensor := g.sensor) == g && SensorLabel(f) == SensorLabel(g) then
              k in t.fans && t.fans[k] == s.fans[k]
            else devs[i].name in t.fans && t.fans[devs[i].name] == devs[i]
  {
    hide Inv, Source, LabelsFree, Merge, To, Message, SameMessage;
    MergeStores(s, devs, Policy(true, true), grants, i, k);
    SameMessageIff(devs[i], s.fans[k]);
    DeepEqualIff(f, g);
  }
}
