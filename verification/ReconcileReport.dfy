/** What a pass reports, told by the commands it gave and the states of the units. */
module ReconcileReport {
  import opened Prelude
  import opened Reconcile
  import opened ReconcileLaws

  // ---------------------------------------------------------------------
  // What was stopped.

  /** The stops among the commands from i on that went through. */
  function Stops(trace: seq<Command>, i: nat, f: Fate): seq<string>
    requires i <= |trace|
    decreases |trace| - i
  {
    if i == |trace| then []
    else (if trace[i].Stop? && f.ok(i) then [trace[i].name] else []) + Stops(trace, i + 1, f)
  }

  /** How many stops were given from i on. */
  function Given(trace: seq<Command>, i: nat): nat
    requires i <= |trace|
    decreases |trace| - i
  {
    if i == |trace| then 0 else (if trace[i].Stop? then 1 else 0) + Given(trace, i + 1)
  }

  lemma {:induction false} GivenAll(trace: seq<Command>, i: nat)
    requires i <= |trace| && forall k | i <= k < |trace| :: trace[k].Stop?
    ensures Given(trace, i) == |trace| - i
    decreases |trace| - i
  {
    if i < |trace| {
      GivenAll(trace, i + 1);
    }
  }

  lemma {:induction false} StopsSnoc(trace: seq<Command>, i: nat, c: Command, f: Fate)
    requires i <= |trace|
    ensures Stops(trace + [c], i, f) == Stops(trace, i, f) + if c.Stop? && f.ok(|trace|) then [c.name] else []
    decreases |trace| - i
  {
    if i == |trace| {
      assert Stops(trace + [c], i + 1, f) == [];
    } else {
      StopsSnoc(trace, i + 1, c, f);
    }
  }

  /** The stop loop gives a stop for each name listed that is nodary's and not wanted, in
      the order listed, and reports those that went through. */
  lemma {:induction false} StopsReported(s: Sys, names: seq<string>, wanted: set<string>, f: Fate)
    ensures var (t, stopped) := StopPass(s, names, wanted, f);
      && s.trace <= t.trace && (forall i | |s.trace| <= i < |t.trace| :: t.trace[i].Stop?)
      && stopped == Stops(t.trace, |s.trace|, f)
      && (forall n | n in names && "nodary-model@" <= n && n !in wanted ::
            exists i :: |s.trace| <= i < |t.trace| && t.trace[i] == Stop(n))
    decreases |names|
  {
    hide Stops, Word, FileOf, Loads;
    if names == [] {
      NoStops(s.trace, f);
    } else {
      var k := |names| - 1;
      StopsReported(s, names[..k], wanted, f);
      var t, v := StopPass(s, names[..k], wanted, f).0, StopPass(s, names, wanted, f).0;
      StopsSnoc(t.trace, |s.trace|, Stop(names[k]), f);
      forall n | n in names && "nodary-model@" <= n && n !in wanted
        ensures exists i :: |s.trace| <= i < |v.trace| && v.trace[i] == Stop(n)
      {
        if n == names[k] {
          assert v.trace[|t.trace|] == Stop(n);
        } else {
          assert n in names[..k];
          var i :| |s.trace| <= i < |t.trace| && t.trace[i] == Stop(n);
          assert v.trace[i] == Stop(n);
        }
      }
    }
  }

  lemma NoStops(trace: seq<Command>, f: Fate)
    ensures Stops(trace, |trace|, f) == []
  {
  }

  // ---------------------------------------------------------------------
  // What was done to the units.

  /** The unit was brought up by a command that went through, one asked for. */
  predicate Honoured(p: Plan, s: Sys, t: Sys, u: Unit, f: Fate) {
    u.id in p.restart && t.trace != s.trace && s.trace <= t.trace
    && (var last := t.trace[|t.trace| - 1];
        (last == Start(UnitName(u.id)) || last == Restart(UnitName(u.id))) && f.ok(|t.trace| - 1))
  }

  lemma ExecTrace(s: Sys, c: Command, f: Fate)
    ensures Exec(s, c, f).trace == s.trace + [c]
  {
    hide FileOf, Loads;
  }

  /** Of a start the last command is the start exactly when it was given, and it went
      through exactly when the unit counts as raised. */
  lemma RaiseReported(s: Sys, name: string, f: Fate)
    ensures var (t, up) := Raise(s, name, f);
      && s.trace <= t.trace && t.trace != s.trace
      && (t.trace[|t.trace| - 1] == Start(name) || t.trace[|t.trace| - 1] == ResetFailed(name))
      && (up <==> t.trace[|t.trace| - 1] == Start(name) && f.ok(|t.trace| - 1))
  {
    hide Exec;
    ExecTrace(s, ResetFailed(name), f);
    ExecTrace(s, Start(name), f);
    ExecTrace(Exec(s, ResetFailed(name), f), Start(name), f);
  }

  /** One unit's outcome: a request counts as honoured exactly when the unit's last
      command, a start or a restart, went through; "starting" is answered of a unit that
      is up and "stopped" of one that is not, neither after a command that failed. */
  lemma UnitReported(p: Plan, s: Sys, u: Unit, f: Fate)
    ensures var (t, out, restarted) := ReconcileUnit(p, s, u, f);
      && (restarted <==> Honoured(p, s, t, u, f)) && out.id == u.id
      && (out.state == "starting" ==> Word(t, UnitName(u.id)) == "active" && Servable(p, u, f))
      && (out.state == "stopped" ==> Word(t, UnitName(u.id)) != "active" && Servable(p, u, f))
      && (out.state in ["starting", "stopped"] && t.trace != s.trace ==> f.ok(|t.trace| - 1))
      && out.state in ["starting", "stopped", "failed", "staging", "preparing"]
  {
    hide UnitName, Servable, Gate, Exec, Raise, Word, Written;
    GateOpens(p, u, f);
    var name, t := UnitName(u.id), Written(s, u);
    if Servable(p, u, f) {
      WrittenFile(s, u);
      ExecTrace(t, Restart(name), f);
      RaiseReported(t, name, f);
    } else {
      Waiting(p, s, u, f);
    }
  }

  ghost predicate Answered(p: Plan, t: Sys, u: Unit, out: Outcome, f: Fate) {
    && out.id == u.id
    && (out.state == "starting" ==> Word(t, UnitName(u.id)) == "active" && Servable(p, u, f))
    && (out.state == "stopped" ==> Word(t, UnitName(u.id)) != "active" && Servable(p, u, f))
  }

  lemma AnsweredSame(p: Plan, t: Sys, v: Sys, u: Unit, out: Outcome, f: Fate)
    requires Answered(p, t, u, out, f) && Word(v, UnitName(u.id)) == Word(t, UnitName(u.id))
    ensures Answered(p, v, u, out, f)
  {
  }

  lemma SameAtWord(s: Sys, t: Sys, n: string)
    requires SameAt(s, t, n)
    ensures Word(t, n) == Word(s, n)
  {
  }

  /** The outcomes of a pass's units: one each, in the plan's order. */
  lemma {:induction false} UnitsAnswered(p: Plan, s: Sys, us: seq<Unit>, f: Fate)
    requires Distinct(us)
    ensures var (t, outs, _) := UnitPass(p, s, us, f);
      |outs| == |us| && forall i | 0 <= i < |us| :: Answered(p, t, us[i], outs[i], f)
    decreases |us|
  {
    hide UnitName, ReconcileUnit, Servable, Word, Distinct, Answered, SameAt, Proper;
    if us != [] {
      var k := |us| - 1;
      var init, u := us[..k], us[k];
      DistinctInit(us);
      UnitsAnswered(p, s, init, f);
      var (t, outs, _) := UnitPass(p, s, init, f);
      UnitAnswered(p, t, u, f);
      UnitFrame(p, t, u, f);
      var v := ReconcileUnit(p, t, u, f).0;
      LastUnnamed(us);
      forall i | 0 <= i < k ensures Answered(p, v, us[i], outs[i], f) {
        assert init[i] in init;
        SameAtWord(t, v, UnitName(us[i].id));
        AnsweredSame(p, t, v, us[i], outs[i], f);
      }
    }
  }

  lemma UnitAnswered(p: Plan, s: Sys, u: Unit, f: Fate)
    ensures var (t, out, _) := ReconcileUnit(p, s, u, f); Answered(p, t, u, out, f)
  {
    hide ReconcileUnit, Servable, Word, Honoured;
    UnitReported(p, s, u, f);
  }

  lemma UnitHonoured(p: Plan, s: Sys, u: Unit, f: Fate)
    ensures var (t, _, restarted) := ReconcileUnit(p, s, u, f); restarted <==> Honoured(p, s, t, u, f)
  {
    hide ReconcileUnit, Servable, Word, Honoured;
    UnitReported(p, s, u, f);
  }

  /** The requests reported are exactly those that went through. */
  lemma {:induction false} UnitsHonoured(p: Plan, s: Sys, us: seq<Unit>, f: Fate)
    requires Distinct(us)
    ensures var (t, _, done) := UnitPass(p, s, us, f);
      forall id :: id in done <==> exists u :: u in us && u.id == id && Up(p, s, t, u, f)
    decreases |us|
  {
    hide UnitName, ReconcileUnit, Servable, Word, Up, Distinct, Honoured, SameAt, Proper;
    if us != [] {
      var k := |us| - 1;
      var init, u := us[..k], us[k];
      DistinctInit(us);
      UnitsHonoured(p, s, init, f);
      var t := UnitPass(p, s, init, f).0;
      UnitHonoured(p, t, u, f);
      var v := ReconcileUnit(p, t, u, f).0;
      LastUnnamed(us);
      UnitsFrame(p, s, init, f);
      UpLast(p, s, t, v, u, init, f);
      forall w | w in init ensures Up(p, s, v, w, f) <==> Up(p, s, t, w, f) {
        UpBefore(p, s, t, v, u, w, f);
      }
      assert forall w :: w in us <==> w in init || w == u;
    }
  }

  lemma DistinctInit(us: seq<Unit>)
    requires Distinct(us) && us != []
    ensures Distinct(us[..|us| - 1])
  {
  }

  /** A start or restart of u that was asked for went through between s and t. */
  ghost predicate Up(p: Plan, s: Sys, t: Sys, u: Unit, f: Fate) {
    u.id in p.restart && exists i ::
      |s.trace| <= i < |t.trace| && (t.trace[i] == Start(UnitName(u.id)) || t.trace[i] == Restart(UnitName(u.id))) && f.ok(i)
  }

  lemma UpLast(p: Plan, s: Sys, t: Sys, v: Sys, u: Unit, init: seq<Unit>, f: Fate)
    requires s.trace <= t.trace && v == ReconcileUnit(p, t, u, f).0
    requires UnitName(u.id) !in Names(init)
    requires forall i | |s.trace| <= i < |t.trace| :: Called(p, s, init, f, t.trace[i])
    ensures Up(p, s, v, u, f) <==> Honoured(p, t, v, u, f)
  {
    hide UnitName, ReconcileUnit, Servable, Asked, Word, Names;
    UnitCommands(p, t, u, f);
    forall i | |s.trace| <= i < |t.trace|
      ensures t.trace[i] != Start(UnitName(u.id)) && t.trace[i] != Restart(UnitName(u.id))
    {
      assert Called(p, s, init, f, t.trace[i]);
      var w :| w in init && Proper(p, s, w, f, t.trace[i]);
      assert UnitName(w.id) in Names(init);
    }
    assert forall i | |s.trace| <= i < |t.trace| :: v.trace[i] == t.trace[i];
    if Honoured(p, t, v, u, f) {
      assert v.trace[|v.trace| - 1] == Start(UnitName(u.id)) || v.trace[|v.trace| - 1] == Restart(UnitName(u.id));
    }
  }

  lemma UpBefore(p: Plan, s: Sys, t: Sys, v: Sys, u: Unit, w: Unit, f: Fate)
    requires s.trace <= t.trace && v == ReconcileUnit(p, t, u, f).0 && UnitName(w.id) != UnitName(u.id)
    ensures Up(p, s, v, w, f) <==> Up(p, s, t, w, f)
  {
    hide UnitName, ReconcileUnit, Servable, Asked, Word;
    UnitCommands(p, t, u, f);
    assert forall i | |s.trace| <= i < |t.trace| :: v.trace[i] == t.trace[i];
    forall i | |t.trace| <= i < |v.trace| ensures v.trace[i] != Start(UnitName(w.id)) && v.trace[i] != Restart(UnitName(w.id)) {
    }
  }

  // ---------------------------------------------------------------------
  // The placements out of policy.

  lemma {:induction false} PolicyReported(s: Sys, vs: seq<string>)
    ensures forall v :: v in Idle(s, vs) <==> v in vs && Word(s, UnitName(v)) != "active"
    ensures forall v :: v in Live(s, vs) <==> v in vs && Word(s, UnitName(v)) == "active"
    ensures |Idle(s, vs)| + |Live(s, vs)| == |vs|
    decreases |vs|
  {
    hide UnitName, Word;
    if vs != [] {
      var k := |vs| - 1;
      PolicyReported(s, vs[..k]);
      assert forall v :: v in vs <==> v in vs[..k] || v == vs[k];
      assert Active(s, UnitName(vs[k])) <==> Word(s, UnitName(vs[k])) == "active";
    }
  }

  ghost predicate Starts(p: Plan, s: Sys, f: Fate) {
    f.template && (s.template == p.template || f.ok(|s.trace|))
  }

  /** A pass in its parts: to t0 the template, to v the units, and then the stops. */
  lemma PassParts(p: Plan, s: Sys, f: Fate) returns (t0: Sys, v: Sys)
    requires Distinct(p.units) && Starts(p, s, f)
    ensures t0.units == s.units && v == UnitPass(p, t0, p.units, f).0
    ensures var (t, r) := Pass(p, s, f);
      && s.trace <= t0.trace <= v.trace <= t.trace
      && (forall i | |s.trace| <= i < |t0.trace| :: t0.trace[i].Reload?)
      && (forall i | |t0.trace| <= i < |v.trace| :: Called(p, t0, p.units, f, v.trace[i]))
      && (forall i | |v.trace| <= i < |t.trace| :: t.trace[i].Stop?)
      && r.units == UnitPass(p, t0, p.units, f).1 && r.restarted == UnitPass(p, t0, p.units, f).2
      && r.refused == Idle(v, p.outOfPolicy) && r.outOfPolicy == Live(v, p.outOfPolicy)
      && r.stopped == Stops(t.trace, |v.trace|, f)
      && (r.errors == 1 || r.errors + |r.stopped| == Given(t.trace, |v.trace|))
      && (forall n | n in Wanted(p, v) :: Word(t, n) == Word(v, n))
      && (forall n | n !in Names(p.units) :: SameAt(t0, v, n))
  {
    hide UnitPass, StopPass, Prepared, Names, UnitName, Word, Idle, Live, Stops, Given, Distinct, Wanted, Called, SameAt, Justified;
    assert Prepared(p, s, f).1 by { StartsReady(p, s, f); }
    t0 := Prepared(p, s, f).0;
    PreparedFrame(p, s, f);
    v := UnitPass(p, t0, p.units, f).0;
    UnitsFrame(p, t0, p.units, f);
    Stopping(p, v, f);
  }

  lemma StartsReady(p: Plan, s: Sys, f: Fate)
    requires Starts(p, s, f)
    ensures Prepared(p, s, f).1
  {
  }

  /** What a pass reports of the plan's units: one outcome each, in order, "starting" of
      those that are up at the end and "stopped" of those that are not; and the restarts
      are those asked for that went through. */
  lemma ReportUnits(p: Plan, s: Sys, f: Fate)
    requires Distinct(p.units) && Starts(p, s, f)
    ensures var (t, r) := Pass(p, s, f);
      && |r.units| == |p.units| && (forall i | 0 <= i < |p.units| :: Answered(p, t, p.units[i], r.units[i], f))
      && (forall id :: id in r.restarted <==> exists u :: u in p.units && u.id == id && Up(p, s, t, u, f))
  {
    hide Pass, UnitPass, Names, UnitName, Servable, Word, Up, Distinct, Answered, Wanted, Called, Starts, Idle, Live;
    var t0, v := PassParts(p, s, f);
    var (t, r) := Pass(p, s, f);
    UnitsAnswered(p, t0, p.units, f);
    UnitsHonoured(p, t0, p.units, f);
    forall i | 0 <= i < |p.units| ensures Answered(p, t, p.units[i], r.units[i], f) {
      assert p.units[i] in p.units;
      NamesWanted(p, v, p.units[i]);
      AnsweredSame(p, v, t, p.units[i], r.units[i], f);
    }
    forall u | u in p.units ensures Up(p, s, t, u, f) <==> Up(p, t0, v, u, f) {
      UpWhole(p, s, t0, v, t, u, f);
    }
  }

  /** What is out of policy is refused when it was idle and reported as out of policy when
      it ran. */
  lemma ReportPolicy(p: Plan, s: Sys, f: Fate)
    requires Distinct(p.units) && Starts(p, s, f)
    ensures var r := Pass(p, s, f).1;
      && |r.refused| + |r.outOfPolicy| == |p.outOfPolicy|
      && (forall v | v in p.outOfPolicy && UnitName(v) !in Names(p.units) ::
            (v in r.refused <==> Word(s, UnitName(v)) != "active") && (v in r.outOfPolicy <==> Word(s, UnitName(v)) == "active"))
      && (forall v | v in r.refused || v in r.outOfPolicy :: v in p.outOfPolicy)
  {
    hide Pass, UnitPass, Names, UnitName, Servable, Word, Distinct, Wanted, Called, Starts, Idle, Live, SameAt;
    var t0, v := PassParts(p, s, f);
    PolicyReported(v, p.outOfPolicy);
    forall o | o in p.outOfPolicy && UnitName(o) !in Names(p.units) ensures Word(v, UnitName(o)) == Word(s, UnitName(o)) {
      assert SameAt(t0, v, UnitName(o));
      SameWord(s, t0, v, UnitName(o));
    }
  }

  /** What is reported stopped is exactly what was stopped, in that order; and the errors
      are the stops that failed, or the one of a listing that did. */
  lemma ReportStops(p: Plan, s: Sys, f: Fate)
    requires Distinct(p.units) && Starts(p, s, f)
    ensures var (t, r) := Pass(p, s, f);
      && s.trace <= t.trace && r.stopped == Stops(t.trace, |s.trace|, f)
      && (r.errors == 1 || r.errors + |r.stopped| == Given(t.trace, |s.trace|))
  {
    hide Pass, UnitPass, Names, UnitName, Servable, Word, Distinct, Wanted, Called, Starts, Idle, Live, SameAt, Stops, Given;
    var t0, v := PassParts(p, s, f);
    StopsFrom(p, s, t0, v, Pass(p, s, f).0, f);
  }

  /** A pass whose template cannot be written, or is written and not reloaded, ends there:
      it reports one error and nothing else, and touches no unit. */
  lemma NothingReported(p: Plan, s: Sys, f: Fate)
    requires !f.template || (s.template != p.template && !f.ok(|s.trace|))
    ensures var (t, r) := Pass(p, s, f);
      && r == Report([], [], [], [], [], 1) && t.units == s.units && t.files == s.files && t.loaded == s.loaded
      && t.trace == if f.template then s.trace + [Reload] else s.trace
  {
    hide UnitPass, StopPass;
  }

  lemma SameWord(s: Sys, t: Sys, v: Sys, n: string)
    requires s.units == t.units && SameAt(t, v, n)
    ensures Word(v, n) == Word(s, n)
  {
  }

  lemma NamesWanted(p: Plan, s: Sys, u: Unit)
    requires u in p.units
    ensures UnitName(u.id) in Wanted(p, s)
  {
    hide UnitName, Running;
  }

  /** The end of a pass: from v, where the units are done, to the end. */
  lemma Stopping(p: Plan, v: Sys, f: Fate)
    ensures var listed := f.lists(v.units);
      var (t, stopped) := if listed.None? then (v, []) else StopPass(v, listed.value, Wanted(p, v), f);
      && v.trace <= t.trace && (forall i | |v.trace| <= i < |t.trace| :: t.trace[i].Stop?)
      && stopped == Stops(t.trace, |v.trace|, f) && Given(t.trace, |v.trace|) == |t.trace| - |v.trace|
      && (forall n | n in Wanted(p, v) :: Word(t, n) == Word(v, n))
  {
    hide StopPass, Stops, Wanted, Word;
    NoStops(v.trace, f);
    GivenAll(v.trace, |v.trace|);
    if f.lists(v.units).Some? {
      StopsReported(v, f.lists(v.units).value, Wanted(p, v), f);
      GivenAll(StopPass(v, f.lists(v.units).value, Wanted(p, v), f).0.trace, |v.trace|);
      StopFrame(v, f.lists(v.units).value, Wanted(p, v), f);
    }
  }

  lemma UpWhole(p: Plan, s: Sys, t0: Sys, v: Sys, t: Sys, u: Unit, f: Fate)
    requires s.trace <= t0.trace <= v.trace <= t.trace
    requires forall i | |s.trace| <= i < |t0.trace| :: t0.trace[i].Reload?
    requires forall i | |v.trace| <= i < |t.trace| :: t.trace[i].Stop?
    ensures Up(p, s, t, u, f) <==> Up(p, t0, v, u, f)
  {
    hide UnitName;
    assert forall i | 0 <= i < |t0.trace| :: t.trace[i] == v.trace[i] == t0.trace[i];
    assert forall i | 0 <= i < |v.trace| :: t.trace[i] == v.trace[i];
  }

  lemma {:induction false} StopsSkip(trace: seq<Command>, i: nat, j: nat, f: Fate)
    requires i <= j <= |trace| && forall k | i <= k < j :: !trace[k].Stop?
    ensures Stops(trace, i, f) == Stops(trace, j, f) && Given(trace, i) == Given(trace, j)
    decreases j - i
  {
    if i < j {
      StopsSkip(trace, i + 1, j, f);
    }
  }

  lemma StopsFrom(p: Plan, s: Sys, t0: Sys, v: Sys, t: Sys, f: Fate)
    requires s.trace <= t0.trace <= v.trace <= t.trace
    requires forall i | |s.trace| <= i < |t0.trace| :: t0.trace[i].Reload?
    requires forall i | |t0.trace| <= i < |v.trace| :: Called(p, t0, p.units, f, v.trace[i])
    ensures Stops(t.trace, |s.trace|, f) == Stops(t.trace, |v.trace|, f)
    ensures Given(t.trace, |s.trace|) == Given(t.trace, |v.trace|)
  {
    hide UnitName, Servable, Asked, Word;
    forall k | |s.trace| <= k < |v.trace| ensures !t.trace[k].Stop? {
      assert t.trace[k] == v.trace[k];
      if k < |t0.trace| {
        assert v.trace[k] == t0.trace[k];
      } else {
        assert Called(p, t0, p.units, f, v.trace[k]);
      }
    }
    StopsSkip(t.trace, |s.trace|, |v.trace|, f);
  }
}
