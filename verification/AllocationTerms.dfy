/** Placement in the document's and the node's own terms: cards, backends, fractions and
    device names. */
module AllocationTerms {
  import opened Prelude
  import opened CanonicalNumber
  import opened Allocation
  import opened AllocationLaws

  // ---------------------------------------------------------------------
  // The device argument.

  /** name's last '=' stands right before device. */
  predicate NamesDevice(name: string, device: string) {
    var n := |name| - |device|;
    '=' !in device && n > 0 && name[n - 1] == '=' && name[n..] == device
  }

  lemma {:induction false} DeviceNameExact(name: string, device: string)
    ensures DeviceName(name) == Some(device) <==> NamesDevice(name, device)
    decreases |name|
  {
    if name != "" {
      var k := |name| - 1;
      if name[k] == '=' {
        if device != "" && |device| < |name| && name[|name| - |device|..] == device {
          assert device[|device| - 1] == '=';
        }
      } else if device != "" {
        DeviceNameExact(name[..k], device[..|device| - 1]);
        DeviceSnoc(name[..k], name[k], device);
        assert name == name[..k] + [name[k]];
        assert device == device[..|device| - 1] + [device[|device| - 1]];
      }
    }
  }

  lemma DeviceSnoc(init: string, c: char, device: string)
    requires c != '=' && device != ""
    ensures NamesDevice(init + [c], device) <==>
      device[|device| - 1] == c && NamesDevice(init, device[..|device| - 1])
  {
    var name, d, n := init + [c], device[..|device| - 1], |init| + 1 - |device|;
    assert device == d + [device[|device| - 1]];
    if n > 0 {
      assert name[n..] == init[n..] + [c];
      if name[n..] == device {
        assert init[n..] == name[n..][..|device| - 1] == d;
      }
    }
  }

  /** The toolkit's list names the device. */
  predicate Offers(cdi: seq<string>, device: string) {
    exists i | 0 <= i < |cdi| :: NamesDevice(cdi[i], device)
  }

  lemma DeclaresExact(cdi: seq<string>, device: string)
    ensures Declares(cdi, device) <==> Offers(cdi, device)
  {
    forall i | 0 <= i < |cdi| ensures DeviceName(cdi[i]) == Some(device) <==> NamesDevice(cdi[i], device) {
      DeviceNameExact(cdi[i], device);
    }
  }

  /** The device argument by the cards' vendor. Cards of two vendors have none. Others
      than NVIDIA's are handed over by their render nodes, in order, if each has one.
      NVIDIA's are handed over by index where the toolkit was not asked or names every one
      of them, all together where it names only that and they are all there are, and
      otherwise not at all. */
  lemma FlagExact(node: Node, gpus: seq<int>)
    requires gpus != [] && forall i | 0 <= i < |gpus| :: gpus[i] in node.present
    ensures var flag, vendor := GpuFlag(node, gpus), node.present[gpus[0]].vendor;
      var alike := forall i | 0 <= i < |gpus| :: node.present[gpus[i]].vendor == vendor;
      var named := forall i | 0 <= i < |gpus| :: Offers(node.cdi, IntText(gpus[i]));
      && (!alike ==> flag == None)
      && (alike && vendor != "nvidia" ==>
            && (flag.Some? <==> forall i | 0 <= i < |gpus| :: node.present[gpus[i]].render != "")
            && (flag.Some? ==>
                  && flag.value.Devices? && |flag.value.nodes| == |gpus|
                  && forall i | 0 <= i < |gpus| :: flag.value.nodes[i] == node.present[gpus[i]].render))
      && (alike && vendor == "nvidia" ==>
            flag == if node.cdi == [] || named then Some(Indexed(gpus))
                    else if Offers(node.cdi, "all") && |gpus| == |node.present| then Some(All)
                    else None)
  {
    hide Declares, Offers, IntText;
    DeclaresExact(node.cdi, "all");
    forall i | 0 <= i < |gpus| ensures Declares(node.cdi, IntText(gpus[i])) <==> Offers(node.cdi, IntText(gpus[i])) {
      DeclaresExact(node.cdi, IntText(gpus[i]));
    }
  }

  // ---------------------------------------------------------------------
  // The verdicts.

  /** The bus was measured, and some card wanted is not on it. */
  predicate Gone(node: Node, d: Deployment) {
    node.detected != [] && exists i | 0 <= i < |d.gpus| :: d.gpus[i] !in node.detected
  }

  /** The backend is not among those allowed, or more of a card is asked for than is. */
  predicate Forbidden(l: Limits, d: Deployment) {
    || (l.backends.Some? && d.backend !in l.backends.value)
    || (l.maxFraction.Some? && d.fraction.Some? && d.fraction.value > l.maxFraction.value)
  }

  predicate Full(l: Limits, placed: nat) {
    l.maxDeployments.Some? && placed >= l.maxDeployments.value
  }

  /** It has cards, all of them offered, passes the checks that are not about cards, and
      there is a device argument for them. */
  predicate Rendered(node: Node, d: Deployment) {
    && d.gpus != [] && d.renders && (forall i | 0 <= i < |d.gpus| :: d.gpus[i] in node.present)
    && GpuFlag(node, d.gpus).Some?
  }

  lemma {:induction false} MissingExact(detected: seq<int>, want: seq<int>)
    ensures Missing(detected, want) == [] <==> detected == [] || forall i | 0 <= i < |want| :: want[i] in detected
    decreases |want|
  {
    if want != [] {
      MissingExact(detected, want[1..]);
      assert forall i | 1 <= i < |want| :: want[i] == want[1..][i - 1];
      assert forall i | 0 <= i < |want| - 1 :: want[1..][i] == want[i + 1];
    }
  }

  /** The one verdict of the next deployment, tried in this order: disabled; failed, for a
      card that is gone; out of policy; refused, for want of a unit; refused, for a card
      already held; placed. */
  lemma VerdictExact(node: Node, p: Plan, d: Deployment)
    ensures var q := Step(node, p, d);
      if d.disabled then q == p.(disabled := p.disabled + [d.id])
      else if Gone(node, d) then q == p.(failed := p.failed + [d.id])
      else if Forbidden(node.limits, d) || Full(node.limits, |p.units|) then q == p.(outOfPolicy := p.outOfPolicy + [d.id])
      else if !Rendered(node, d) then q == p.(refused := p.refused + [Refusal(d.id, "")])
      else if ClaimedBy(p.claims, d.gpus) != "" then
        q == p.(refused := p.refused + [Refusal(d.id, ClaimedBy(p.claims, d.gpus))])
      else
        && q.units == p.units + [Placement(d.id, d.gpus, GpuFlag(node, d.gpus).value)]
        && q.refused == p.refused && q.failed == p.failed && q.outOfPolicy == p.outOfPolicy && q.disabled == p.disabled
  {
    hide GpuFlag, Missing, ClaimedBy, Claim;
    MissingExact(node.detected, d.gpus);
  }

  /** What it is for the node to take a deployment on its own. */
  lemma FitsExact(node: Node, d: Deployment)
    ensures Fits(node, d) <==> !d.disabled && !Gone(node, d) && !Forbidden(node.limits, d) && Rendered(node, d)
  {
    hide GpuFlag, Missing;
    MissingExact(node.detected, d.gpus);
  }
}
