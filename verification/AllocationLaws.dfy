/** What every plan is: one verdict each, no GPU twice, no cap exceeded, and the first
    claimant wins. */
module AllocationLaws {
  import opened Prelude
  import opened CanonicalNumber
  import opened Allocation

  function Cards(s: seq<int>): set<int> {
    set x | x in s
  }

  // ---------------------------------------------------------------------
  // One verdict each.

  /** The ids of a list of anything that has one. */
  function Ids<T>(ts: seq<T>, id: T -> string): (ids: seq<string>)
    ensures |ids| == |ts| && forall i | 0 <= i < |ids| :: ids[i] == id(ts[i])
  {
    seq(|ts|, i requires 0 <= i < |ts| => id(ts[i]))
  }

  const ID_OF_UNIT := (u: Placement) => u.id
  const ID_OF_REFUSED := (r: Refusal) => r.id
  const ID_OF := (d: Deployment) => d.id

  /** How many verdicts a plan gives an id. */
  function Verdicts(p: Plan, id: string): nat {
    multiset(Ids(p.units, ID_OF_UNIT))[id] + multiset(Ids(p.refused, ID_OF_REFUSED))[id] + multiset(p.failed)[id]
      + multiset(p.outOfPolicy)[id] + multiset(p.disabled)[id]
  }

  function One(id: string, x: string): nat {
    if id == x then 1 else 0
  }

  lemma Snoc(s: seq<string>, x: string, id: string)
    ensures multiset(s + [x])[id] == multiset(s)[id] + One(x, id)
  {
  }

  lemma IdsSnoc<T>(ts: seq<T>, t: T, of: T -> string, id: string)
    ensures multiset(Ids(ts + [t], of))[id] == multiset(Ids(ts, of))[id] + One(of(t), id)
  {
    assert Ids(ts + [t], of) == Ids(ts, of) + [of(t)];
    Snoc(Ids(ts, of), of(t), id);
  }

  lemma StepVerdict(node: Node, p: Plan, d: Deployment, id: string)
    ensures Verdicts(Step(node, p, d), id) == Verdicts(p, id) + One(d.id, id)
  {
    hide GpuFlag, ClaimedBy, Claim, Missing, OutsideLimits, UnitFor, Ids, One;
    var holder := ClaimedBy(p.claims, d.gpus);
    if d.disabled {
      Snoc(p.disabled, d.id, id);
    } else if Missing(node.detected, d.gpus) != [] {
      Snoc(p.failed, d.id, id);
    } else if OutsideLimits(node.limits, d, |p.units|) {
      Snoc(p.outOfPolicy, d.id, id);
    } else if UnitFor(node, d).None? {
      IdsSnoc(p.refused, Refusal(d.id, ""), ID_OF_REFUSED, id);
    } else if holder != "" {
      IdsSnoc(p.refused, Refusal(d.id, holder), ID_OF_REFUSED, id);
    } else {
      UnitIsOf(node, d);
      IdsSnoc(p.units, UnitFor(node, d).value, ID_OF_UNIT, id);
    }
  }

  lemma UnitIsOf(node: Node, d: Deployment)
    requires UnitFor(node, d).Some?
    ensures var u := UnitFor(node, d).value; u.id == d.id && u.gpus == d.gpus
    ensures d.gpus != [] && forall k | 0 <= k < |d.gpus| :: d.gpus[k] in node.present
  {
    hide GpuFlag;
  }

  /** Every deployment gets exactly one verdict, and nothing else gets one: an id is
      listed, over all five lists, as often as it stands in the document. */
  lemma {:induction false} OneVerdictEach(node: Node, ds: seq<Deployment>, id: string)
    ensures Verdicts(Build(node, ds), id) == multiset(Ids(ds, ID_OF))[id]
    decreases |ds|
  {
    hide Step;
    if ds == [] {
      NoVerdicts(id);
    } else {
      var init := ds[..|ds| - 1];
      OneVerdictEach(node, init, id);
      StepVerdict(node, Build(node, init), ds[|ds| - 1], id);
      assert ds == init + [ds[|ds| - 1]];
      IdsSnoc(init, ds[|ds| - 1], ID_OF, id);
    }
  }

  lemma NoVerdicts(id: string)
    ensures Verdicts(EMPTY_PLAN, id) == 0
  {
    assert Ids([], ID_OF_UNIT) == [] && Ids([], ID_OF_REFUSED) == [];
  }

  // ---------------------------------------------------------------------
  // Claims.

  /** The claims are exactly the cards of the units placed, each under its unit's id,
      and no two units share one. */
  ghost predicate Held(node: Node, p: Plan) {
    && (forall c | c in p.claims :: exists i | 0 <= i < |p.units| :: c in p.units[i].gpus && p.claims[c] == p.units[i].id)
    && (forall i | 0 <= i < |p.units| :: Placed(node, p, p.units[i]))
    && (forall i, j | 0 <= i < j < |p.units| :: Cards(p.units[i].gpus) !! Cards(p.units[j].gpus))
  }

  ghost predicate Placed(node: Node, p: Plan, u: Placement) {
    u.gpus != [] && u.id != "" && forall k | 0 <= k < |u.gpus| :: u.gpus[k] in node.present && u.gpus[k] in p.claims
  }

  lemma {:induction false} ClaimAll(claims: map<int, string>, want: seq<int>, id: string)
    ensures Claim(claims, want, id).Keys == claims.Keys + Cards(want)
    ensures forall c | c in want :: Claim(claims, want, id)[c] == id
    ensures forall c | c in claims && c !in want :: Claim(claims, want, id)[c] == claims[c]
    decreases |want|
  {
    if want != [] {
      ClaimAll(claims[want[0] := id], want[1..], id);
      assert want == [want[0]] + want[1..];
      assert forall c :: c in want <==> c == want[0] || c in want[1..];
    }
  }

  lemma ClaimAt(claims: map<int, string>, want: seq<int>, id: string, i: nat)
    requires i < |want|
    ensures want[i] in Claim(claims, want, id) && Claim(claims, want, id)[want[i]] == id
  {
    ClaimAll(claims, want, id);
    var c := want[i];
    assert c in want && c in Cards(want);
    assert Claim(claims, want, id)[c] == id;
  }

  /** No holder is named exactly when no wanted card is claimed under a name. */
  lemma {:induction false} ClaimedExact(claims: map<int, string>, want: seq<int>)
    requires forall c | c in claims :: claims[c] != ""
    ensures ClaimedBy(claims, want) == "" <==> forall c | c in want :: c !in claims
    ensures ClaimedBy(claims, want) != "" ==> exists c :: c in want && c in claims && claims[c] == ClaimedBy(claims, want)
    decreases |want|
  {
    if want != [] {
      ClaimedExact(claims, want[1..]);
      assert want == [want[0]] + want[1..];
      assert forall c :: c in want <==> c == want[0] || c in want[1..];
    }
  }

  lemma ClaimsNamed(node: Node, p: Plan)
    requires Held(node, p)
    ensures forall c | c in p.claims :: p.claims[c] != ""
  {
    forall c | c in p.claims ensures p.claims[c] != "" {
      var i :| 0 <= i < |p.units| && c in p.units[i].gpus && p.claims[c] == p.units[i].id;
      assert Placed(node, p, p.units[i]);
    }
  }

  lemma PlaceHeld(node: Node, p: Plan, d: Deployment, u: Placement)
    requires Held(node, p) && d.id != "" && UnitFor(node, d) == Some(u) && ClaimedBy(p.claims, d.gpus) == ""
    ensures Held(node, p.(units := p.units + [u], claims := Claim(p.claims, d.gpus, d.id)))
  {
    hide GpuFlag, Claim, ClaimedBy;
    var claims := Claim(p.claims, d.gpus, d.id);
    var q := p.(units := p.units + [u], claims := claims);
    ClaimAll(p.claims, d.gpus, d.id);
    ClaimsNamed(node, p);
    ClaimedExact(p.claims, d.gpus);
    var n := |p.units|;
    assert q.units[n] == u && u.id == d.id && u.gpus == d.gpus;
    forall c | c in claims ensures exists i | 0 <= i < |q.units| :: c in q.units[i].gpus && claims[c] == q.units[i].id {
      if c in d.gpus {
        assert c in q.units[n].gpus;
      } else {
        var i :| 0 <= i < n && c in p.units[i].gpus && p.claims[c] == p.units[i].id;
        assert q.units[i] == p.units[i];
      }
    }
    forall i | 0 <= i < |q.units| ensures Placed(node, q, q.units[i]) {
      if i < n {
        assert Placed(node, p, p.units[i]);
      }
    }
    forall i, j | 0 <= i < j < |q.units| ensures Cards(q.units[i].gpus) !! Cards(q.units[j].gpus) {
      if j == n {
        assert Placed(node, p, p.units[i]);
        forall c | c in Cards(p.units[i].gpus) ensures c !in Cards(d.gpus) {
          assert c in p.units[i].gpus && c in p.claims;
        }
      }
    }
  }

  /** Named deployments: the cards of the units placed are on offer, and no card is
      given twice. */
  lemma {:induction false} BuildHeld(node: Node, ds: seq<Deployment>)
    requires forall i | 0 <= i < |ds| :: ds[i].id != ""
    ensures Held(node, Build(node, ds))
    decreases |ds|
  {
    if ds == [] {
    } else {
      hide GpuFlag, Claim, ClaimedBy, Missing, OutsideLimits, UnitFor, Held;
      var init, d := ds[..|ds| - 1], ds[|ds| - 1];
      BuildHeld(node, init);
      var p := Build(node, init);
      if !d.disabled && Missing(node.detected, d.gpus) == [] && !OutsideLimits(node.limits, d, |p.units|)
         && UnitFor(node, d).Some? && ClaimedBy(p.claims, d.gpus) == "" {
        PlaceHeld(node, p, d, UnitFor(node, d).value);
      } else {
        HeldElsewhere(node, p, Step(node, p, d));
      }
    }
  }

  lemma HeldElsewhere(node: Node, p: Plan, q: Plan)
    requires Held(node, p) && q.units == p.units && q.claims == p.claims
    ensures Held(node, q)
  {
    forall i | 0 <= i < |q.units| ensures Placed(node, q, q.units[i]) {
      assert Placed(node, p, p.units[i]);
    }
  }

  /** A deployment with no id holds its cards against nobody: an empty holder reads as
      no holder at all. */
  lemma EmptyIdSharesCards(node: Node, a: Deployment, b: Deployment)
    requires node.detected == [] && node.limits == Limits(None, None, None)
    requires !a.disabled && !b.disabled && UnitFor(node, a).Some? && UnitFor(node, b).Some?
    requires a.id == "" && b.gpus == a.gpus
    ensures Build(node, [a, b]).units == [UnitFor(node, a).value, UnitFor(node, b).value]
  {
    hide GpuFlag, UnitFor;
    assert [a, b][..1] == [a] && [a][..0] == [];
    assert Missing(node.detected, a.gpus) == [];
    assert Build(node, []) == EMPTY_PLAN;
    assert Build(node, [a]) == Step(node, EMPTY_PLAN, a);
    NothingClaimed(a.gpus);
    var claims := Claim(map[], a.gpus, "");
    ClaimAll(map[], a.gpus, "");
    forall i | 0 <= i < |a.gpus| ensures a.gpus[i] in claims && claims[a.gpus[i]] == "" {
      ClaimAt(map[], a.gpus, "", i);
    }
    OnlyEmpty(claims, b.gpus);
  }

  lemma {:induction false} NothingClaimed(want: seq<int>)
    ensures ClaimedBy(map[], want) == ""
    decreases |want|
  {
    if want != [] {
      NothingClaimed(want[1..]);
    }
  }

  lemma OnlyEmpty(claims: map<int, string>, want: seq<int>)
    requires forall i | 0 <= i < |want| :: want[i] in claims && claims[want[i]] == ""
    ensures ClaimedBy(claims, want) == ""
  {
    if want != [] {
      assert claims[want[0]] == "";
    }
  }

  // ---------------------------------------------------------------------
  // Which deployments are placed.

  /** The verdict of the i-th deployment. */
  predicate IsPlaced(node: Node, ds: seq<Deployment>, i: nat)
    requires i < |ds|
  {
    |Build(node, ds[..i + 1]).units| > |Build(node, ds[..i]).units|
  }

  /** Everything the node asks of a deployment on its own. */
  predicate Fits(node: Node, d: Deployment) {
    && !d.disabled && Missing(node.detected, d.gpus) == []
    && !OutsideLimits(node.limits.(maxDeployments := None), d, 0)
    && UnitFor(node, d).Some?
  }

  predicate UnderCap(l: Limits, placed: int) {
    l.maxDeployments.Some? ==> placed < l.maxDeployments.value
  }

  function PlacedBefore(node: Node, ds: seq<Deployment>): set<nat> {
    set j: nat | j < |ds| && IsPlaced(node, ds, j)
  }

  lemma PrefixPlaced(node: Node, ds: seq<Deployment>, n: nat, j: nat)
    requires j < n <= |ds|
    ensures IsPlaced(node, ds[..n], j) == IsPlaced(node, ds, j)
  {
    assert ds[..n][..j] == ds[..j] && ds[..n][..j + 1] == ds[..j + 1];
  }

  lemma PlacedSnoc(node: Node, ds: seq<Deployment>)
    requires ds != []
    ensures var n := |ds| - 1;
      PlacedBefore(node, ds) == PlacedBefore(node, ds[..n]) + if IsPlaced(node, ds, n) then {n} else {}
  {
    var n := |ds| - 1;
    forall j: nat ensures j in PlacedBefore(node, ds) <==>
        j in PlacedBefore(node, ds[..n]) || (j == n && IsPlaced(node, ds, n)) {
      if j < n {
        PrefixPlaced(node, ds, n, j);
      }
    }
  }

  /** The units are the placed deployments, and they hold exactly their cards. */
  ghost predicate Tracks(node: Node, ds: seq<Deployment>) {
    var p := Build(node, ds);
    && |p.units| == |PlacedBefore(node, ds)|
    && forall c :: c in p.claims <==> exists j :: j in PlacedBefore(node, ds) && c in ds[j].gpus
  }

  lemma {:induction false} BuildTracks(node: Node, ds: seq<Deployment>)
    ensures Tracks(node, ds)
    decreases |ds|
  {
    if ds == [] {
    } else {
      BuildTracks(node, ds[..|ds| - 1]);
      StepTracks(node, ds);
    }
  }

  lemma StepTracks(node: Node, ds: seq<Deployment>)
    requires ds != [] && Tracks(node, ds[..|ds| - 1])
    ensures Tracks(node, ds)
  {
    hide GpuFlag, Claim, ClaimedBy, Missing, OutsideLimits, UnitFor, IsPlaced;
    var n := |ds| - 1;
    var init, d := ds[..n], ds[n];
    var p, q := Build(node, init), Build(node, ds);
    StepShape(node, ds);
    PlacedSnoc(node, ds);
    ClaimAll(p.claims, d.gpus, d.id);
    var before, after := PlacedBefore(node, init), PlacedBefore(node, ds);
    assert n !in before;
    forall c ensures c in q.claims <==> exists j :: j in after && c in ds[j].gpus {
      if c in q.claims {
        if c in p.claims {
          var j :| j in before && c in init[j].gpus;
          assert j in after && c in ds[j].gpus;
        } else {
          assert n in after && c in ds[n].gpus;
        }
      }
      if j :| j in after && c in ds[j].gpus {
        if j != n {
          assert j in before && c in init[j].gpus;
        }
      }
    }
  }

  /** What the last deployment adds. */
  lemma StepShape(node: Node, ds: seq<Deployment>)
    requires ds != []
    ensures var n := |ds| - 1;
      var p, q := Build(node, ds[..n]), Build(node, ds);
      && (IsPlaced(node, ds, n) ==> |q.units| == |p.units| + 1 && q.claims == Claim(p.claims, ds[n].gpus, ds[n].id)
                                    && q.units[..|p.units|] == p.units && UnitFor(node, ds[n]) == Some(q.units[|p.units|]))
      && (!IsPlaced(node, ds, n) ==> q.units == p.units && q.claims == p.claims)
      && (IsPlaced(node, ds, n) <==> Fits(node, ds[n]) && UnderCap(node.limits, |p.units|)
                                     && ClaimedBy(p.claims, ds[n].gpus) == "")
  {
    hide Claim, ClaimedBy, UnitFor, UnderCap, Step, Build, Fits;
    var n := |ds| - 1;
    assert ds[..n + 1] == ds;
    BuildStep(node, ds);
    StepForm(node, Build(node, ds[..n]), ds[n]);
  }

  lemma StepForm(node: Node, p: Plan, d: Deployment)
    ensures var q := Step(node, p, d);
      var placed := Fits(node, d) && UnderCap(node.limits, |p.units|) && ClaimedBy(p.claims, d.gpus) == "";
      && (placed ==> |q.units| == |p.units| + 1 && q.claims == Claim(p.claims, d.gpus, d.id)
                     && q.units[..|p.units|] == p.units && UnitFor(node, d) == Some(q.units[|p.units|]))
      && (!placed ==> q.units == p.units && q.claims == p.claims)
  {
    hide Claim, ClaimedBy, Missing, UnitFor, OutsideLimits, UnderCap;
    LimitsSplit(node.limits, d, |p.units|);
  }

  lemma BuildStep(node: Node, ds: seq<Deployment>)
    requires ds != []
    ensures Build(node, ds) == Step(node, Build(node, ds[..|ds| - 1]), ds[|ds| - 1])
  {
    hide Step;
  }

  lemma LimitsSplit(l: Limits, d: Deployment, placed: nat)
    ensures OutsideLimits(l, d, placed) <==> OutsideLimits(l.(maxDeployments := None), d, 0) || !UnderCap(l, placed)
  {
  }

  /** Placement is greedy and exact: a deployment is placed if and only if the node
      takes it on its own, fewer than the cap were placed before it, and none of those
      holds a card it wants. Later deployments play no part. */
  lemma PlacedExact(node: Node, ds: seq<Deployment>, i: nat)
    requires i < |ds| && forall j | 0 <= j < |ds| :: ds[j].id != ""
    ensures IsPlaced(node, ds, i) <==>
      && Fits(node, ds[i])
      && UnderCap(node.limits, |PlacedBefore(node, ds[..i])|)
      && forall j | j in PlacedBefore(node, ds[..i]) :: Cards(ds[j].gpus) !! Cards(ds[i].gpus)
  {
    hide GpuFlag, Claim, ClaimedBy, Missing, OutsideLimits, UnitFor, Fits, Build, UnderCap, IsPlaced, Held;
    var upto := ds[..i + 1];
    assert upto[..i] == ds[..i];
    PrefixPlaced(node, ds, i + 1, i);
    StepShape(node, upto);
    BuildTracks(node, ds[..i]);
    BuildHeld(node, ds[..i]);
    var p := Build(node, ds[..i]);
    ClaimsNamed(node, p);
    ClaimedExact(p.claims, ds[i].gpus);
    var before := PlacedBefore(node, ds[..i]);
    if c :| c in ds[i].gpus && c in p.claims {
      var j :| j in before && c in ds[..i][j].gpus;
      assert c in Cards(ds[j].gpus) && c in Cards(ds[i].gpus);
    } else {
      forall j | j in before ensures Cards(ds[j].gpus) !! Cards(ds[i].gpus) {
        forall c | c in Cards(ds[j].gpus) ensures c !in Cards(ds[i].gpus) {
          assert c in ds[..i][j].gpus && c in p.claims;
        }
      }
    }
  }

  /** No more deployments are placed than the cap allows. */
  lemma {:induction false} CapHolds(node: Node, ds: seq<Deployment>, cap: nat)
    requires node.limits.maxDeployments == Some(cap)
    ensures |Build(node, ds).units| <= cap
    decreases |ds|
  {
    if ds == [] {
    } else {
      hide Fits, Claim, ClaimedBy, UnitFor;
      CapHolds(node, ds[..|ds| - 1], cap);
      StepShape(node, ds);
    }
  }

  /** A plan's lists extend another's. */
  predicate Extends(p: Plan, q: Plan) {
    p.units <= q.units && p.refused <= q.refused && p.failed <= q.failed
    && p.outOfPolicy <= q.outOfPolicy && p.disabled <= q.disabled
  }

  /** Appending deployments changes no earlier verdict. */
  lemma {:induction false} EarlierStand(node: Node, ds: seq<Deployment>, more: seq<Deployment>)
    ensures Extends(Build(node, ds), Build(node, ds + more))
    decreases |more|
  {
    if more == [] {
      assert ds + more == ds;
    } else {
      hide Step, Extends, Build;
      var n := |more| - 1;
      EarlierStand(node, ds, more[..n]);
      assert (ds + more)[..|ds + more| - 1] == ds + more[..n];
      BuildStep(node, ds + more);
      assert (ds + more)[|ds + more| - 1] == more[n];
      StepExtends(node, Build(node, ds + more[..n]), more[n]);
      ExtendsOn(Build(node, ds), Build(node, ds + more[..n]), Build(node, ds + more));
    }
  }

  lemma ExtendsOn(p: Plan, q: Plan, r: Plan)
    requires Extends(p, q) && Extends(q, r)
    ensures Extends(p, r)
  {
    Further(p.units, q.units, r.units);
    Further(p.refused, q.refused, r.refused);
    Further(p.failed, q.failed, r.failed);
    Further(p.outOfPolicy, q.outOfPolicy, r.outOfPolicy);
    Further(p.disabled, q.disabled, r.disabled);
  }

  lemma Further<T>(a: seq<T>, b: seq<T>, c: seq<T>)
    requires a <= b <= c
    ensures a <= c
  {
  }

  lemma StepExtends(node: Node, p: Plan, d: Deployment)
    ensures Extends(p, Step(node, p, d))
  {
    hide Claim, ClaimedBy, UnitFor, Missing, OutsideLimits;
  }

  lemma StepRefusal(node: Node, p: Plan, d: Deployment)
    requires |Step(node, p, d).refused| == |p.refused| + 1
    requires Step(node, p, d).refused[|p.refused|].holder != ""
    ensures Step(node, p, d).refused[|p.refused|] == Refusal(d.id, ClaimedBy(p.claims, d.gpus))
    ensures Step(node, p, d).units == p.units
  {
    hide Claim, ClaimedBy, UnitFor, Missing, OutsideLimits;
  }

  /** A refusal for a claim names a deployment placed earlier that holds a card the
      refused one wants. */
  lemma {:induction false} HolderIsEarlier(node: Node, ds: seq<Deployment>, k: nat)
    requires forall j | 0 <= j < |ds| :: ds[j].id != ""
    requires k < |Build(node, ds).refused| && Build(node, ds).refused[k].holder != ""
    ensures exists i, j | 0 <= j < i < |ds| ::
      && ds[i].id == Build(node, ds).refused[k].id && ds[j].id == Build(node, ds).refused[k].holder
      && IsPlaced(node, ds, j) && !IsPlaced(node, ds, i) && !(Cards(ds[j].gpus) !! Cards(ds[i].gpus))
    decreases |ds|
  {
    hide Fits, Claim, ClaimedBy, UnitFor, Missing, OutsideLimits, Held, IsPlaced;
    var n := |ds| - 1;
    var p := Build(node, ds[..n]);
    BuildStep(node, ds);
    if k < |p.refused| {
      HolderIsEarlier(node, ds[..n], k);
      var i, j :| 0 <= j < i < n
        && ds[..n][i].id == p.refused[k].id && ds[..n][j].id == p.refused[k].holder
        && IsPlaced(node, ds[..n], j) && !IsPlaced(node, ds[..n], i) && !(Cards(ds[..n][j].gpus) !! Cards(ds[..n][i].gpus));
      PrefixPlaced(node, ds, n, i);
      PrefixPlaced(node, ds, n, j);
      assert ds[i].id == ds[..n][i].id && ds[j].id == ds[..n][j].id;
    } else {
      ClaimRefusal(node, ds);
    }
  }

  lemma ClaimRefusal(node: Node, ds: seq<Deployment>)
    requires ds != [] && forall j | 0 <= j < |ds| :: ds[j].id != ""
    requires var p, q := Build(node, ds[..|ds| - 1]), Build(node, ds);
      |q.refused| == |p.refused| + 1 && q.refused[|p.refused|].holder != ""
    ensures var n := |ds| - 1;
      var q := Build(node, ds);
      var r := q.refused[|q.refused| - 1];
      && r.id == ds[n].id && !IsPlaced(node, ds, n)
      && exists j :: 0 <= j < n && ds[j].id == r.holder && IsPlaced(node, ds, j) && !(Cards(ds[j].gpus) !! Cards(ds[n].gpus))
  {
    var n := |ds| - 1;
    var p := Build(node, ds[..n]);
    hide Claim, ClaimedBy, Step, Held;
    BuildStep(node, ds);
    StepRefusal(node, p, ds[n]);
    assert ds[..n + 1] == ds;
    assert !IsPlaced(node, ds, n);
    hide IsPlaced, Build;
    BuildHeld(node, ds[..n]);
    ClaimsNamed(node, p);
    ClaimedExact(p.claims, ds[n].gpus);
    var c :| c in ds[n].gpus && c in p.claims && p.claims[c] == ClaimedBy(p.claims, ds[n].gpus);
    var j := Holder(node, ds[..n], c);
    PrefixPlaced(node, ds, n, j);
    assert c in Cards(ds[j].gpus) && c in Cards(ds[n].gpus);
  }

  /** Who holds a claimed card. */
  lemma {:induction false} Holder(node: Node, ds: seq<Deployment>, c: int) returns (j: nat)
    requires c in Build(node, ds).claims
    ensures j < |ds| && IsPlaced(node, ds, j) && c in ds[j].gpus && ds[j].id == Build(node, ds).claims[c]
    decreases |ds|
  {
    hide Fits, Claim, ClaimedBy, UnitFor, Missing, OutsideLimits, Held, IsPlaced;
    var n := |ds| - 1;
    var p := Build(node, ds[..n]);
    StepShape(node, ds);
    ClaimAll(p.claims, ds[n].gpus, ds[n].id);
    if IsPlaced(node, ds, n) && c in ds[n].gpus {
      j := n;
    } else {
      j := Holder(node, ds[..n], c);
      PrefixPlaced(node, ds, n, j);
    }
  }

  // ---------------------------------------------------------------------
  // All or the named ones.

  lemma {:induction false} CardsSize(s: seq<int>)
    ensures |Cards(s)| <= |s|
    ensures |Cards(s)| == |s| <==> forall i, j | 0 <= i < j < |s| :: s[i] != s[j]
    decreases |s|
  {
    if s == [] {
    } else {
      var n := |s| - 1;
      CardsSize(s[..n]);
      assert Cards(s) == Cards(s[..n]) + {s[n]};
      if s[n] in s[..n] {
        assert Cards(s) == Cards(s[..n]);
        var k :| 0 <= k < n && s[..n][k] == s[n];
        assert s[k] == s[n];
      }
      if forall i, j | 0 <= i < j < n :: s[..n][i] != s[..n][j] {
        assert forall i, j | 0 <= i < j < n :: s[i] != s[j];
      }
    }
  }

  /** A container is handed every card only when as many were assigned as are on
      offer; that is the whole offer exactly when no index is assigned twice. */
  lemma AllIsWhole(node: Node, d: Deployment)
    requires UnitFor(node, d).Some? && UnitFor(node, d).value.flag.All?
    ensures Cards(d.gpus) == node.present.Keys <==> forall i, j | 0 <= i < j < |d.gpus| :: d.gpus[i] != d.gpus[j]
  {
    hide Declares, IntText;
    CardsSize(d.gpus);
    assert Cards(d.gpus) <= node.present.Keys;
    SubsetSize(Cards(d.gpus), node.present.Keys);
    assert |node.present.Keys| == |node.present|;
  }
}
