/** Which deployments of a document a node will run, and which GPUs each one gets. */
module Allocation {
  import opened Prelude
  import opened CanonicalNumber

  /** fraction is the gpu_memory_fraction the params ask for, if they parse and name
      one; renders says the unit passes every check that is not about its GPUs. */
  datatype Deployment = Deployment(
    id: string, disabled: bool, backend: string, gpus: seq<int>, fraction: Option<real>, renders: bool)

  datatype Gpu = Gpu(vendor: string, render: string)

  /** What node.toml allows; an absent limit is None. */
  datatype Limits = Limits(backends: Option<seq<string>>, maxFraction: Option<real>, maxDeployments: Option<int>)

  /** detected is empty when the bus was not measured. */
  datatype Node = Node(detected: seq<int>, present: map<int, Gpu>, cdi: seq<string>, limits: Limits)

  /** The device argument a unit is started with. */
  datatype Flag = Indexed(indices: seq<int>) | All | Devices(nodes: seq<string>)

  datatype Placement = Placement(id: string, gpus: seq<int>, flag: Flag)

  /** holder is the deployment a claim was refused for, or "". */
  datatype Refusal = Refusal(id: string, holder: string)

  datatype Plan = Plan(
    units: seq<Placement>, refused: seq<Refusal>, failed: seq<string>, outOfPolicy: seq<string>,
    disabled: seq<string>, claims: map<int, string>)

  const NVIDIA := "nvidia"

  // ---------------------------------------------------------------------
  // One deployment against the node.

  function Missing(detected: seq<int>, want: seq<int>): seq<int> {
    if detected == [] || want == [] then []
    else if want[0] in detected then Missing(detected, want[1..])
    else [want[0]] + Missing(detected, want[1..])
  }

  predicate OutsideLimits(l: Limits, d: Deployment, placed: int) {
    || (l.backends.Some? && d.backend !in l.backends.value)
    || (l.maxFraction.Some? && d.fraction.Some? && d.fraction.value > l.maxFraction.value)
    || (l.maxDeployments.Some? && placed >= l.maxDeployments.value)
  }

  /** The part of a device name after its last '='. */
  function DeviceName(name: string): Option<string> {
    if name == "" then None
    else if name[|name| - 1] == '=' then Some("")
    else
      var init := DeviceName(name[..|name| - 1]);
      if init.None? then None else Some(init.value + [name[|name| - 1]])
  }

  predicate Declares(cdi: seq<string>, device: string) {
    exists i | 0 <= i < |cdi| :: DeviceName(cdi[i]) == Some(device)
  }

  predicate OneVendor(node: Node, gpus: seq<int>)
    requires gpus != [] && forall i | 0 <= i < |gpus| :: gpus[i] in node.present
  {
    forall i | 0 <= i < |gpus| :: node.present[gpus[i]].vendor == node.present[gpus[0]].vendor
  }

  /** The device argument for an assignment, or None when there is none to give. */
  function GpuFlag(node: Node, gpus: seq<int>): Option<Flag>
    requires gpus != [] && forall i | 0 <= i < |gpus| :: gpus[i] in node.present
  {
    if !OneVendor(node, gpus) then None
    else if node.present[gpus[0]].vendor != NVIDIA then
      if exists i | 0 <= i < |gpus| :: node.present[gpus[i]].render == "" then None
      else Some(Devices(seq(|gpus|, i requires 0 <= i < |gpus| => node.present[gpus[i]].render)))
    else if node.cdi == [] || forall i | 0 <= i < |gpus| :: Declares(node.cdi, IntText(gpus[i])) then
      Some(Indexed(gpus))
    else if !Declares(node.cdi, "all") || |gpus| != |node.present| then None
    else Some(All)
  }

  /** The unit of a deployment, or None when it cannot be rendered here. */
  function UnitFor(node: Node, d: Deployment): Option<Placement> {
    if d.gpus == [] || !d.renders || (exists i | 0 <= i < |d.gpus| :: d.gpus[i] !in node.present) then None
    else
      var flag := GpuFlag(node, d.gpus);
      if flag.None? then None else Some(Placement(d.id, d.gpus, flag.value))
  }

  /** The deployment holding the first of these indices that is held, or "". */
  function ClaimedBy(claims: map<int, string>, want: seq<int>): string {
    if want == [] then ""
    else if want[0] in claims then claims[want[0]]
    else ClaimedBy(claims, want[1..])
  }

  function Claim(claims: map<int, string>, want: seq<int>, id: string): map<int, string>
    decreases |want|
  {
    if want == [] then claims else Claim(claims[want[0] := id], want[1..], id)
  }

  // ---------------------------------------------------------------------
  // The document, in order.

  const EMPTY_PLAN := Plan([], [], [], [], [], map[])

  function Step(node: Node, p: Plan, d: Deployment): Plan {
    if d.disabled then p.(disabled := p.disabled + [d.id])
    else if Missing(node.detected, d.gpus) != [] then p.(failed := p.failed + [d.id])
    else if OutsideLimits(node.limits, d, |p.units|) then p.(outOfPolicy := p.outOfPolicy + [d.id])
    else
      var u := UnitFor(node, d);
      if u.None? then p.(refused := p.refused + [Refusal(d.id, "")])
      else
        var holder := ClaimedBy(p.claims, d.gpus);
        if holder != "" then p.(refused := p.refused + [Refusal(d.id, holder)])
        else p.(units := p.units + [u.value], claims := Claim(p.claims, d.gpus, d.id))
  }

  function Build(node: Node, ds: seq<Deployment>): Plan
    decreases |ds|
  {
    if ds == [] then EMPTY_PLAN else Step(node, Build(node, ds[..|ds| - 1]), ds[|ds| - 1])
  }

  // ---------------------------------------------------------------------
  // The loops.

  method FindMissing(detected: seq<int>, want: seq<int>) returns (gone: seq<int>)
    ensures gone == Missing(detected, want)
  {
    gone := [];
    if detected == [] {
      return;
    }
    var i := 0;
    while i < |want|
      invariant 0 <= i <= |want|
      invariant Missing(detected, want) == gone + Missing(detected, want[i..])
    {
      if want[i] !in detected {
        gone := gone + [want[i]];
      }
      i := i + 1;
    }
  }

  method FindHolder(claims: map<int, string>, want: seq<int>) returns (holder: string)
    ensures holder == ClaimedBy(claims, want)
  {
    var i := 0;
    while i < |want|
      invariant 0 <= i <= |want|
      invariant ClaimedBy(claims, want) == ClaimedBy(claims, want[i..])
    {
      if want[i] in claims {
        return claims[want[i]];
      }
      i := i + 1;
    }
    return "";
  }

  method Vendors(node: Node, gpus: seq<int>) returns (vendors: set<string>)
    requires gpus != [] && forall i | 0 <= i < |gpus| :: gpus[i] in node.present
    ensures node.present[gpus[0]].vendor in vendors
    ensures |vendors| == 1 <==> OneVendor(node, gpus)
    ensures |vendors| == 1 ==> vendors == {node.present[gpus[0]].vendor}
  {
    vendors := {};
    var i := 0;
    while i < |gpus|
      invariant 0 <= i <= |gpus|
      invariant forall j | 0 <= j < i :: node.present[gpus[j]].vendor in vendors
      invariant forall v | v in vendors :: exists j | 0 <= j < i :: node.present[gpus[j]].vendor == v
    {
      vendors := vendors + {node.present[gpus[i]].vendor};
      i := i + 1;
    }
    var first := node.present[gpus[0]].vendor;
    assert OneVendor(node, gpus) ==> vendors == {first};
    if |vendors| == 1 {
      Singleton(vendors, first);
    }
  }

  lemma Singleton(s: set<string>, x: string)
    requires |s| == 1 && x in s
    ensures s == {x}
  {
    assert {x} <= s;
    SubsetSize({x}, s);
  }

  method RenderNodes(node: Node, gpus: seq<int>) returns (nodes: Option<seq<string>>)
    requires forall i | 0 <= i < |gpus| :: gpus[i] in node.present
    ensures nodes.None? <==> exists i | 0 <= i < |gpus| :: node.present[gpus[i]].render == ""
    ensures nodes.Some? ==> nodes.value == seq(|gpus|, i requires 0 <= i < |gpus| => node.present[gpus[i]].render)
  {
    var out: seq<string> := [];
    var i := 0;
    while i < |gpus|
      invariant 0 <= i <= |gpus| && |out| == i
      invariant forall j | 0 <= j < i :: out[j] == node.present[gpus[j]].render != ""
    {
      if node.present[gpus[i]].render == "" {
        return None;
      }
      out := out + [node.present[gpus[i]].render];
      i := i + 1;
    }
    return Some(out);
  }

  method DeviceNames(cdi: seq<string>) returns (have: set<string>)
    ensures forall s :: s in have <==> Declares(cdi, s)
  {
    have := {};
    var i := 0;
    while i < |cdi|
      invariant 0 <= i <= |cdi|
      invariant forall s :: s in have <==> exists j | 0 <= j < i :: DeviceName(cdi[j]) == Some(s)
    {
      var name := DeviceName(cdi[i]);
      if name.Some? {
        have := have + {name.value};
      }
      i := i + 1;
    }
  }

  method EveryIndexed(have: set<string>, gpus: seq<int>) returns (every: bool)
    ensures every <==> forall i | 0 <= i < |gpus| :: IntText(gpus[i]) in have
  {
    var i := 0;
    while i < |gpus|
      invariant 0 <= i <= |gpus|
      invariant forall j | 0 <= j < i :: IntText(gpus[j]) in have
    {
      if IntText(gpus[i]) !in have {
        return false;
      }
      i := i + 1;
    }
    return true;
  }

  method DeviceFlag(node: Node, gpus: seq<int>) returns (flag: Option<Flag>)
    requires gpus != [] && forall i | 0 <= i < |gpus| :: gpus[i] in node.present
    ensures flag == GpuFlag(node, gpus)
  {
    hide Declares, IntText, DeviceName;
    var vendors := Vendors(node, gpus);
    if |vendors| > 1 {
      return None;
    }
    assert OneVendor(node, gpus);
    if NVIDIA !in vendors {
      var nodes := RenderNodes(node, gpus);
      if nodes.None? {
        return None;
      }
      return Some(Devices(nodes.value));
    }
    if node.cdi == [] {
      return Some(Indexed(gpus));
    }
    var have := DeviceNames(node.cdi);
    var every := EveryIndexed(have, gpus);
    if every {
      return Some(Indexed(gpus));
    }
    if "all" !in have || |gpus| != |node.present| {
      return None;
    }
    return Some(All);
  }

  method PlanUnits(node: Node, ds: seq<Deployment>) returns (p: Plan)
    ensures p == Build(node, ds)
  {
    var units: seq<Placement>, refused: seq<Refusal> := [], [];
    var failed: seq<string>, outOfPolicy: seq<string>, disabled: seq<string> := [], [], [];
    var claims: map<int, string> := map[];
    var i := 0;
    while i < |ds|
      invariant 0 <= i <= |ds|
      invariant Plan(units, refused, failed, outOfPolicy, disabled, claims) == Build(node, ds[..i])
    {
      var d := ds[i];
      assert ds[..i + 1][..i] == ds[..i];
      i := i + 1;
      if d.disabled {
        disabled := disabled + [d.id];
        continue;
      }
      var gone := FindMissing(node.detected, d.gpus);
      if gone != [] {
        failed := failed + [d.id];
        continue;
      }
      if OutsideLimits(node.limits, d, |units|) {
        outOfPolicy := outOfPolicy + [d.id];
        continue;
      }
      var u := UnitFor(node, d);
      if u.None? {
        refused := refused + [Refusal(d.id, "")];
        continue;
      }
      var holder := FindHolder(claims, d.gpus);
      if holder != "" {
        refused := refused + [Refusal(d.id, holder)];
        continue;
      }
      ghost var before := claims;
      var k := 0;
      while k < |d.gpus|
        invariant 0 <= k <= |d.gpus|
        invariant Claim(before, d.gpus, d.id) == Claim(claims, d.gpus[k..], d.id)
      {
        claims := claims[d.gpus[k] := d.id];
        k := k + 1;
      }
      units := units + [u.value];
    }
    assert ds[..i] == ds;
    p := Plan(units, refused, failed, outOfPolicy, disabled, claims);
  }
}
