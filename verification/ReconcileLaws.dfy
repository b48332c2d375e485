/** Safety, convergence, and what a failed restart leaves behind. */
module ReconcileLaws {
  import opened Prelude
  import opened Reconcile

  predicate Distinct(us: seq<Unit>) {
    forall i, j | 0 <= i < j < |us| :: us[i].id != us[j].id
  }

  lemma NameInjective(a: string, b: string)
    requires UnitName(a) == UnitName(b)
    ensures a == b
  {
    var n := |PREFIX|;
    assert |UnitName(a)| == n + |a| + |SUFFIX| && |UnitName(b)| == n + |b| + |SUFFIX|;
    assert UnitName(a)[n..n + |a|] == a && UnitName(b)[n..n + |b|] == b;
  }

  // ---------------------------------------------------------------------
  // What a step leaves alone.

  predicate SameAt(s: Sys, t: Sys, n: string) {
    && Word(s, n) == Word(t, n)
    && (n in s.files <==> n in t.files) && (n in s.files ==> s.files[n] == t.files[n])
    && (n in s.loaded <==> n in t.loaded) && (n in s.loaded ==> s.loaded[n] == t.loaded[n])
  }

  /** Its weights are staged, its build, if it has one, is prepared, and its image is at
      hand. */
  predicate Servable(p: Plan, u: Unit, f: Fate) {
    && u.model in p.staged && p.staged[u.model] == "staged"
    && (u.id in p.built ==> p.built[u.id] == "prepared")
    && f.image(u.image)
  }

  predicate Asked(p: Plan, u: Unit) {
    u.id in p.restart
  }

  /** Why a command may be given on u: it can be served; a unit that is up is restarted
      when its configuration changed or that was asked for, one that is down is started,
      and one that failed is touched only when asked for. */
  predicate Proper(p: Plan, s: Sys, u: Unit, f: Fate, c: Command) {
    && (c.Start? || c.Restart? || c.ResetFailed?) && c.name == UnitName(u.id)
    && Servable(p, u, f) && (Word(s, c.name) == "failed" ==> Asked(p, u))
    && (c.Restart? ==> Word(s, c.name) == "active" && (Asked(p, u) || c.name !in s.files || s.files[c.name] != u.env))
    && (c.Start? ==> Word(s, c.name) != "active")
    && (c.ResetFailed? ==> Word(s, c.name) == "failed")
  }

  lemma GateOpens(p: Plan, u: Unit, f: Fate)
    ensures Gate(p, u, f) == "" <==> Servable(p, u, f)
  {
  }

  /** A unit that cannot be served is left as it is, and answered with what it waits for:
      its weights, then its build, of which a failed one is the unit's own failure, then
      its image. */
  lemma Waiting(p: Plan, s: Sys, u: Unit, f: Fate)
    requires !Servable(p, u, f)
    ensures var staged := u.model in p.staged && p.staged[u.model] == "staged";
      var unbuilt := u.id in p.built && p.built[u.id] != "prepared";
      ReconcileUnit(p, s, u, f) == (s, Outcome(u.id,
        if !staged then "staging"
        else if unbuilt && p.built[u.id] == "failed" then "failed"
        else "preparing"), false)
  {
    hide Exec, Raise;
  }

  /** A step changes nothing but one unit, by commands on that unit. */
  ghost predicate LocalTo(s: Sys, t: Sys, name: string) {
    && t.template == s.template && s.trace <= t.trace
    && (forall n | n != name :: SameAt(s, t, n))
    && (forall i | |s.trace| <= i < |t.trace| :: OnUnit(t.trace[i], name))
  }

  predicate OnUnit(c: Command, name: string) {
    (c.Start? || c.Restart? || c.ResetFailed?) && c.name == name
  }

  lemma ExecLocal(s: Sys, c: Command, f: Fate)
    requires c.Start? || c.Restart? || c.ResetFailed?
    ensures LocalTo(s, Exec(s, c, f), c.name)
  {
    hide FileOf, Loads;
  }

  lemma WrittenLocal(s: Sys, u: Unit)
    ensures LocalTo(s, Written(s, u), UnitName(u.id)) && Written(s, u).units == s.units && Written(s, u).trace == s.trace
  {
    hide UnitName;
  }

  lemma LocalThen(s: Sys, t: Sys, v: Sys, name: string)
    requires LocalTo(s, t, name) && LocalTo(t, v, name)
    ensures LocalTo(s, v, name)
  {
    hide OnUnit;
    forall n | n != name ensures SameAt(s, v, n) {
      SameOn(s, t, v, n);
    }
    forall i | |s.trace| <= i < |v.trace| ensures OnUnit(v.trace[i], name) {
      assert i < |t.trace| ==> v.trace[i] == t.trace[i];
    }
  }

  lemma RaiseLocal(s: Sys, name: string, f: Fate)
    ensures LocalTo(s, Raise(s, name, f).0, name)
  {
    hide LocalTo, Exec;
    ExecLocal(s, Start(name), f);
    ExecLocal(s, ResetFailed(name), f);
    var t := Exec(s, ResetFailed(name), f);
    ExecLocal(t, Start(name), f);
    LocalThen(s, t, Exec(t, Start(name), f), name);
  }

  lemma UnitLocal(p: Plan, s: Sys, u: Unit, f: Fate)
    ensures LocalTo(s, ReconcileUnit(p, s, u, f).0, UnitName(u.id))
  {
    hide LocalTo, Exec, Gate, Raise, UnitName, Changed, Word;
    var name := UnitName(u.id);
    LocalSelf(s, name);
    WrittenLocal(s, u);
    var t := Written(s, u);
    hide Written;
    ExecLocal(t, Restart(name), f);
    LocalThen(s, t, Exec(t, Restart(name), f), name);
    RaiseLocal(t, name, f);
    LocalThen(s, t, Raise(t, name, f).0, name);
  }

  lemma LocalSelf(s: Sys, name: string)
    ensures LocalTo(s, s, name)
  {
  }

  /** Every command a unit can be given. */
  lemma UnitCommands(p: Plan, s: Sys, u: Unit, f: Fate)
    ensures var t, n := ReconcileUnit(p, s, u, f).0, UnitName(u.id);
      || t.trace == s.trace
      || (&& Servable(p, u, f)
          && ((t.trace == s.trace + [Restart(n)] && Word(s, n) == "active"
               && (Asked(p, u) || n !in s.files || s.files[n] != u.env))
              || (t.trace == s.trace + [Start(n)] && Word(s, n) != "active" && Word(s, n) != "failed")
              || ((t.trace == s.trace + [ResetFailed(n)] || t.trace == s.trace + [ResetFailed(n), Start(n)])
                  && Word(s, n) == "failed" && Asked(p, u))))
  {
    hide UnitName, Gate, Servable, FileOf, Loads, Asked;
    GateOpens(p, u, f);
    WrittenFile(s, u);
    assert Asked(p, u) <==> u.id in p.restart by { AskedIs(p, u); }
  }

  lemma AskedIs(p: Plan, u: Unit)
    ensures Asked(p, u) <==> u.id in p.restart
  {
  }

  lemma UnitFrame(p: Plan, s: Sys, u: Unit, f: Fate)
    ensures var t := ReconcileUnit(p, s, u, f).0;
      && t.template == s.template && s.trace <= t.trace
      && (forall n | n != UnitName(u.id) :: SameAt(s, t, n))
      && (forall i | |s.trace| <= i < |t.trace| :: Proper(p, s, u, f, t.trace[i]))
  {
    hide UnitName, Servable, Asked, SameAt, ReconcileUnit, Word;
    UnitLocal(p, s, u, f);
    UnitCommands(p, s, u, f);
  }

  /** One of these units calls for the command. */
  ghost predicate Called(p: Plan, s: Sys, us: seq<Unit>, f: Fate, c: Command) {
    exists u :: u in us && Proper(p, s, u, f, c)
  }

  lemma {:induction false} UnitsFrame(p: Plan, s: Sys, us: seq<Unit>, f: Fate)
    requires Distinct(us)
    ensures var t := UnitPass(p, s, us, f).0;
      && t.template == s.template && s.trace <= t.trace
      && (forall n | n !in Names(us) :: SameAt(s, t, n))
      && (forall i | |s.trace| <= i < |t.trace| :: Called(p, s, us, f, t.trace[i]))
    decreases |us|
  {
    hide UnitName, ReconcileUnit, Proper, SameAt;
    if us == [] {
      forall n ensures SameAt(s, s, n) {
        SameSelf(s, n);
      }
    } else {
      var k := |us| - 1;
      var init, u := us[..k], us[k];
      UnitsFrame(p, s, init, f);
      var t := UnitPass(p, s, init, f).0;
      UnitFrame(p, t, u, f);
      var v := ReconcileUnit(p, t, u, f).0;
      LastUnnamed(us);
      forall n | n !in Names(us) ensures SameAt(s, v, n) {
        SameOn(s, t, v, n);
      }
      forall i | |s.trace| <= i < |v.trace| ensures Called(p, s, us, f, v.trace[i]) {
        if i < |t.trace| {
          assert v.trace[i] == t.trace[i] && Called(p, s, init, f, t.trace[i]);
          var w :| w in init && Proper(p, s, w, f, t.trace[i]);
          assert w in us;
        } else {
          ProperBefore(p, s, t, u, f, v.trace[i]);
          assert u in us;
        }
      }
    }
  }

  lemma SameSelf(s: Sys, n: string)
    ensures SameAt(s, s, n)
  {
  }

  lemma SameOn(s: Sys, t: Sys, v: Sys, n: string)
    requires SameAt(s, t, n) && SameAt(t, v, n)
    ensures SameAt(s, v, n)
  {
  }

  lemma ProperBefore(p: Plan, s: Sys, t: Sys, u: Unit, f: Fate, c: Command)
    requires Proper(p, t, u, f, c) && SameAt(s, t, UnitName(u.id))
    ensures Proper(p, s, u, f, c)
  {
  }

  /** The last of distinct units shares no name with the ones before it. */
  lemma LastUnnamed(us: seq<Unit>)
    requires us != [] && Distinct(us)
    ensures UnitName(us[|us| - 1].id) !in Names(us[..|us| - 1])
  {
    var k := |us| - 1;
    forall w | w in us[..k] ensures UnitName(w.id) != UnitName(us[k].id) {
      if UnitName(w.id) == UnitName(us[k].id) {
        NameInjective(w.id, us[k].id);
      }
    }
  }

  // ---------------------------------------------------------------------
  // Stopping.

  lemma {:induction false} StopFrame(s: Sys, names: seq<string>, wanted: set<string>, f: Fate)
    ensures var t := StopPass(s, names, wanted, f).0;
      && t.template == s.template && t.files == s.files && t.loaded == s.loaded && s.trace <= t.trace
      && (forall n | n in wanted || n !in names || !IsOurs(n) :: Word(t, n) == Word(s, n))
      && (forall i | |s.trace| <= i < |t.trace| ::
            t.trace[i].Stop? && t.trace[i].name in names && IsOurs(t.trace[i].name) && t.trace[i].name !in wanted)
    decreases |names|
  {
    if names != [] {
      hide IsOurs;
      var k := |names| - 1;
      StopFrame(s, names[..k], wanted, f);
      assert forall n :: n in names <==> n in names[..k] || n == names[k];
    }
  }

  // ---------------------------------------------------------------------
  // Safety.

  /** Every command has its reason in the plan and in what the host was found in. */
  ghost predicate Justified(p: Plan, s: Sys, f: Fate, c: Command) {
    match c
    case Reload => s.template != p.template
    case Stop(name) =>
      && "nodary-model@" <= name && name !in Names(p.units)
      && (!p.open ==> name !in Running(s, p.outOfPolicy))
    case _ => Called(p, s, p.units, f, c)
  }

  lemma PreparedFrame(p: Plan, s: Sys, f: Fate)
    ensures var (t, ready) := Prepared(p, s, f);
      && t.units == s.units && t.files == s.files && t.loaded == s.loaded
      && (t.trace == s.trace || (t.trace == s.trace + [Reload] && s.template != p.template))
      && (ready ==> t.template == p.template)
  {
  }

  /** In every pass over a plan of distinct units, whatever fails: no unit is started
      or restarted unless its weights are staged, its build, if it has one, prepared
      and its image at hand; one that is up is restarted only for a changed
      configuration or because that was asked for, and a failed one is touched only
      then; only nodary's own units are stopped, never one the plan names, and
      outside the maintenance window never one that is out of policy and running. */
  lemma PassSafe(p: Plan, s: Sys, f: Fate)
    requires Distinct(p.units)
    ensures var t := Pass(p, s, f).0;
      s.trace <= t.trace && forall i | |s.trace| <= i < |t.trace| :: Justified(p, s, f, t.trace[i])
  {
    hide UnitPass, StopPass, Prepared, Proper, Names, Running, UnitName;
    var (t, ready) := Prepared(p, s, f);
    PreparedFrame(p, s, f);
    if ready {
      var v := UnitPass(p, t, p.units, f).0;
      UnitsFrame(p, t, p.units, f);
      SafeUnits(p, s, t, v, f);
      if f.lists(v.units).Some? {
        var names, wanted := f.lists(v.units).value, Wanted(p, v);
        var x := StopPass(v, names, wanted, f).0;
        StopFrame(v, names, wanted, f);
        forall i | |s.trace| <= i < |x.trace| ensures Justified(p, s, f, x.trace[i]) {
          if i < |v.trace| {
            assert x.trace[i] == v.trace[i];
          } else {
            SafeStop(p, s, t, v, f, x.trace[i].name);
          }
        }
      }
    }
  }

  lemma SafeUnits(p: Plan, s: Sys, t: Sys, v: Sys, f: Fate)
    requires t.units == s.units && t.files == s.files && t.trace <= v.trace
    requires t.trace == s.trace || (t.trace == s.trace + [Reload] && s.template != p.template)
    requires forall i | |t.trace| <= i < |v.trace| :: Called(p, t, p.units, f, v.trace[i])
    ensures s.trace <= v.trace && forall i | |s.trace| <= i < |v.trace| :: Justified(p, s, f, v.trace[i])
  {
    hide Servable, Asked, UnitName, Names, Running;
    forall i | |s.trace| <= i < |v.trace| ensures Justified(p, s, f, v.trace[i]) {
      if i < |t.trace| {
        assert v.trace[i] == t.trace[i];
      } else {
        assert Called(p, t, p.units, f, v.trace[i]);
        var u :| u in p.units && Proper(p, t, u, f, v.trace[i]);
        assert Proper(p, s, u, f, v.trace[i]);
      }
    }
  }

  lemma SafeStop(p: Plan, s: Sys, t: Sys, v: Sys, f: Fate, name: string)
    requires t.units == s.units && IsOurs(name) && name !in Wanted(p, v)
    requires forall n | n !in Names(p.units) :: SameAt(t, v, n)
    ensures Justified(p, s, f, Stop(name))
  {
    hide UnitName;
    if !p.open && name !in Names(p.units) {
      assert SameAt(t, v, name);
      assert Word(v, name) == Word(s, name);
    }
  }

  // ---------------------------------------------------------------------
  // Convergence.

  /** Commands succeed and do what they are for, and the manager lists exactly the
      active units of ours. */
  ghost predicate Obedient(f: Fate) {
    && f.template && (forall n :: f.readable(n) && f.writable(n)) && (forall i :: f.image(i)) && (forall k :: f.ok(k))
    && (forall k, n :: f.after(k, Start(n)) == "active" && f.after(k, Restart(n)) == "active")
    && (forall k, n :: f.after(k, Stop(n)) != "active")
    && (forall m :: f.lists(m).Some? && Lists(f.lists(m).value, m))
  }

  ghost predicate Lists(names: seq<string>, m: map<string, string>) {
    forall n :: n in names <==> IsOurs(n) && n in m && m[n] == "active"
  }

  /** The manager lists nothing that is not active. */
  ghost predicate SoundLists(f: Fate) {
    forall m, n :: f.lists(m).Some? && n in f.lists(m).value ==> n in m && m[n] == "active"
  }

  predicate Waits(p: Plan, u: Unit) {
    u.model !in p.staged || p.staged[u.model] != "staged" || (u.id in p.built && p.built[u.id] != "prepared")
  }

  /** Nothing is left to do for u. */
  predicate Done(p: Plan, s: Sys, u: Unit) {
    Waits(p, u) || (!Changed(s, u) && (Active(s, UnitName(u.id)) || Word(s, UnitName(u.id)) == "failed"))
  }

  function PolicyNames(vs: seq<string>): set<string> {
    set v | v in vs :: UnitName(v)
  }

  ghost predicate Settled(p: Plan, s: Sys) {
    && s.template == p.template
    && (forall u | u in p.units :: Done(p, s, u))
    && (forall n | Active(s, n) && IsOurs(n) :: n in Names(p.units) || (!p.open && n in PolicyNames(p.outOfPolicy)))
  }

  lemma DoneStill(p: Plan, s: Sys, u: Unit, f: Fate)
    requires Done(p, s, u) && u.id !in p.restart
    ensures ReconcileUnit(p, s, u, f).0 == s
  {
    hide UnitName, Exec, Raise;
  }

  lemma {:induction false} UnitsStill(p: Plan, s: Sys, us: seq<Unit>, f: Fate)
    requires p.restart == {} && forall u | u in us :: Done(p, s, u)
    ensures UnitPass(p, s, us, f).0 == s
    decreases |us|
  {
    hide Done, ReconcileUnit;
    if us != [] {
      UnitsStill(p, s, us[..|us| - 1], f);
      assert us[|us| - 1] in us;
      DoneStill(p, s, us[|us| - 1], f);
    }
  }

  lemma {:induction false} StopNothing(s: Sys, names: seq<string>, wanted: set<string>, f: Fate)
    requires forall n | n in names && IsOurs(n) :: n in wanted
    ensures StopPass(s, names, wanted, f).0 == s
    decreases |names|
  {
    hide IsOurs;
    if names != [] {
      StopNothing(s, names[..|names| - 1], wanted, f);
      assert names[|names| - 1] in names;
    }
  }

  /** On a settled host a pass does nothing at all, whatever would have failed. */
  lemma SettledStill(p: Plan, s: Sys, f: Fate)
    requires Settled(p, s) && p.restart == {} && SoundLists(f)
    ensures Pass(p, s, f).0 == s
  {
    hide UnitPass, StopPass, Done, UnitName, IsOurs, Names, Running;
    if f.template {
      UnitsStill(p, s, p.units, f);
      var listed := f.lists(s.units);
      if listed.Some? {
        forall n | n in listed.value && IsOurs(n) ensures n in Wanted(p, s) {
          assert Active(s, n);
          if n !in Names(p.units) {
            var v :| v in p.outOfPolicy && UnitName(v) == n;
            assert n in Running(s, p.outOfPolicy);
          }
        }
        StopNothing(s, listed.value, Wanted(p, s), f);
      }
    }
  }

  /** An obeyed start or restart leaves the unit up, and loads the file unless the unit
      was already on its way. */
  lemma ObeyedRun(s: Sys, c: Command, f: Fate)
    requires Obedient(f) && (c.Start? || c.Restart?)
    ensures var t := Exec(s, c, f);
      && f.ok(|s.trace|) && Active(t, c.name) && t.files == s.files
      && t.loaded == if c.Start? && Coming(Word(s, c.name)) then s.loaded else s.loaded[c.name := FileOf(s, c.name)]
  {
    hide Lists, FileOf;
  }

  lemma ObeyedRaise(s: Sys, name: string, f: Fate)
    requires Obedient(f)
    ensures var (t, up) := Raise(s, name, f);
      && up && Active(t, name) && t.files == s.files
      && (Word(s, name) != "failed" ==>
            t.loaded == if Coming(Word(s, name)) then s.loaded else s.loaded[name := FileOf(s, name)])
      && (Word(s, name) == "failed" && f.after(|s.trace|, ResetFailed(name)) == "inactive" ==>
            t.loaded == s.loaded[name := FileOf(s, name)])
  {
    hide Lists;
    ObeyedRun(s, Start(name), f);
    var t := Exec(s, ResetFailed(name), f);
    assert f.ok(|s.trace|) && t.files == s.files && t.loaded == s.loaded && FileOf(t, name) == FileOf(s, name);
    ObeyedRun(t, Start(name), f);
  }

  lemma UnitSettles(p: Plan, s: Sys, u: Unit, f: Fate)
    requires Obedient(f)
    ensures Done(p, ReconcileUnit(p, s, u, f).0, u)
  {
    assert f.image(u.image) && f.readable(UnitName(u.id)) && f.writable(UnitName(u.id));
    hide UnitName, FileOf, Obedient, Exec, Raise, Word;
    var name, t := UnitName(u.id), Written(s, u);
    ObeyedRun(t, Restart(name), f);
    ObeyedRaise(t, name, f);
  }

  lemma DoneSame(p: Plan, s: Sys, t: Sys, u: Unit)
    requires Done(p, s, u) && SameAt(s, t, UnitName(u.id))
    ensures Done(p, t, u)
  {
    hide UnitName;
  }

  lemma {:induction false} UnitsSettle(p: Plan, s: Sys, us: seq<Unit>, f: Fate)
    requires Obedient(f) && Distinct(us)
    ensures var t := UnitPass(p, s, us, f).0; forall u | u in us :: Done(p, t, u)
    decreases |us|
  {
    hide Obedient, Done, ReconcileUnit, SameAt, UnitName;
    if us != [] {
      var k := |us| - 1;
      UnitsSettle(p, s, us[..k], f);
      var t := UnitPass(p, s, us[..k], f).0;
      var v := ReconcileUnit(p, t, us[k], f).0;
      UnitSettles(p, t, us[k], f);
      UnitFrame(p, t, us[k], f);
      LastUnnamed(us);
      forall u | u in us ensures Done(p, v, u) {
        if u != us[k] {
          assert u in us[..k];
          assert UnitName(u.id) in Names(us[..k]);
          DoneSame(p, t, v, u);
        }
      }
    }
  }

  lemma {:induction false} StopStops(s: Sys, names: seq<string>, wanted: set<string>, f: Fate)
    requires forall k, n :: f.after(k, Stop(n)) != "active"
    ensures var t := StopPass(s, names, wanted, f).0;
      && (forall n | n in names && IsOurs(n) && n !in wanted :: !Active(t, n))
      && (forall n | Active(t, n) :: Active(s, n))
    decreases |names|
  {
    hide IsOurs;
    if names != [] {
      StopStops(s, names[..|names| - 1], wanted, f);
      assert forall n :: n in names <==> n in names[..|names| - 1] || n == names[|names| - 1];
    }
  }

  /** One pass whose commands succeed leaves nothing to do. */
  lemma PassSettles(p: Plan, s: Sys, f: Fate)
    requires Distinct(p.units) && Obedient(f)
    ensures Settled(p, Pass(p, s, f).0)
  {
    hide UnitPass, StopPass, Done, UnitName, IsOurs, Names, Running, Exec;
    var (t, ready) := Prepared(p, s, f);
    ReadyThen(p, s, f);
    var v := UnitPass(p, t, p.units, f).0;
    UnitsFrame(p, t, p.units, f);
    UnitsSettle(p, t, p.units, f);
    var names, wanted := f.lists(v.units).value, Wanted(p, v);
    var x := StopPass(v, names, wanted, f).0;
    StopFrame(v, names, wanted, f);
    StopStops(v, names, wanted, f);
    forall u | u in p.units ensures Done(p, x, u) {
      assert UnitName(u.id) in wanted;
      assert SameAt(v, x, UnitName(u.id));
      DoneSame(p, v, x, u);
    }
    forall n | Active(x, n) && IsOurs(n) ensures n in Names(p.units) || (!p.open && n in PolicyNames(p.outOfPolicy)) {
      assert Active(v, n) && Lists(names, v.units);
      assert n in names;
      assert n in wanted;
    }
  }

  lemma ReadyThen(p: Plan, s: Sys, f: Fate)
    requires Obedient(f)
    ensures Prepared(p, s, f).1 && Prepared(p, s, f).0.template == p.template
    ensures f.lists(UnitPass(p, Prepared(p, s, f).0, p.units, f).0.units).Some?
  {
    hide UnitPass;
    assert forall k :: f.ok(k);
  }

  /** Reconciling converges: after one pass whose commands succeed, another pass over
      the same plan issues no command and writes no file, restart requests having been
      honoured, whatever its own commands would have done. */
  lemma Converges(p: Plan, s: Sys, f: Fate, g: Fate)
    requires Distinct(p.units) && Obedient(f) && SoundLists(g)
    ensures var t := Pass(p, s, f).0; Pass(p.(restart := {}), t, g).0 == t
  {
    hide Pass, Settled, Obedient, SoundLists;
    PassSettles(p, s, f);
    var t := Pass(p, s, f).0;
    SettledAnyway(p, t);
    SettledStill(p.(restart := {}), t, g);
  }

  lemma SettledAnyway(p: Plan, s: Sys)
    requires Settled(p, s)
    ensures Settled(p.(restart := {}), s)
  {
    hide Names, UnitName, IsOurs, Changed;
    forall u | u in p.units ensures Done(p.(restart := {}), s, u) {
      assert Done(p, s, u);
    }
  }

  // ---------------------------------------------------------------------
  // Which configuration a unit runs.

  predicate Runs(s: Sys, u: Unit) {
    var name := UnitName(u.id);
    Active(s, name) && name in s.loaded && s.loaded[name] == u.env
  }

  /** The unit is up, or on its way up, with another environment, and nothing the pass
      looks at says so. */
  predicate Stale(p: Plan, s: Sys, u: Unit) {
    var name := UnitName(u.id);
    && (name !in s.loaded || s.loaded[name] != u.env)
    && (Word(s, name) in ["activating", "reloading"]
        || (Active(s, name) && !Changed(s, u) && u.id !in p.restart))
  }

  /** With every command obeyed, a unit nothing holds back ends up running what the
      plan says exactly when it was not left on another environment before: the pass
      compares the file with the plan, never the file with what is running. */
  lemma AppliedExact(p: Plan, s: Sys, u: Unit, f: Fate)
    requires Obedient(f) && !Waits(p, u)
    requires Word(s, UnitName(u.id)) == "failed" ==> u.id in p.restart && f.after(|s.trace|, ResetFailed(UnitName(u.id))) == "inactive"
    ensures Runs(ReconcileUnit(p, s, u, f).0, u) <==> !Stale(p, s, u)
  {
    assert f.image(u.image) && f.readable(UnitName(u.id)) && f.writable(UnitName(u.id));
    hide UnitName, Obedient, Exec, Raise, Word;
    var name, t := UnitName(u.id), Written(s, u);
    assert FileOf(t, name) == u.env && Word(t, name) == Word(s, name) && t.trace == s.trace by {
      WrittenFile(s, u);
    }
    hide FileOf;
    ObeyedRun(t, Restart(name), f);
    ObeyedRaise(t, name, f);
  }

  lemma WrittenFile(s: Sys, u: Unit)
    ensures var t := Written(s, u);
      && FileOf(t, UnitName(u.id)) == u.env && !Changed(t, u)
      && (forall n :: Word(t, n) == Word(s, n)) && t.trace == s.trace && t.loaded == s.loaded
  {
    hide UnitName;
  }

  /** A restart that fails while the unit stays up loses the change for good: the file
      is already written, so no later pass over the same plan, whatever it is given,
      touches the unit again. */
  lemma FailedRestartSticks(p: Plan, s: Sys, u: Unit, f: Fate, g: Fate)
    requires Servable(p, u, f) && f.readable(UnitName(u.id)) && f.writable(UnitName(u.id))
    requires Active(s, UnitName(u.id)) && Changed(s, u) && !Runs(s, u)
    requires !f.ok(|s.trace|) && f.after(|s.trace|, Restart(UnitName(u.id))) == "active"
    ensures var t := ReconcileUnit(p, s, u, f).0;
      && Active(t, UnitName(u.id)) && !Runs(t, u)
      && ReconcileUnit(p.(restart := {}), t, u, g).0 == t
  {
    hide UnitName;
    var t := ReconcileUnit(p, s, u, f).0;
    assert t.trace == s.trace + [Restart(UnitName(u.id))];
    DoneStill(p.(restart := {}), t, u, g);
  }

  // ---------------------------------------------------------------------
  // The template the manager knows.

  lemma UnitKnown(p: Plan, s: Sys, u: Unit, f: Fate)
    ensures var t := ReconcileUnit(p, s, u, f).0; t.known == s.known && t.template == s.template
  {
    hide Gate, UnitName, Word, FileOf, Loads;
  }

  lemma {:induction false} UnitsKnown(p: Plan, s: Sys, us: seq<Unit>, f: Fate)
    ensures var t := UnitPass(p, s, us, f).0; t.known == s.known && t.template == s.template
    decreases |us|
  {
    hide ReconcileUnit;
    if us != [] {
      UnitsKnown(p, s, us[..|us| - 1], f);
      UnitKnown(p, UnitPass(p, s, us[..|us| - 1], f).0, us[|us| - 1], f);
    }
  }

  lemma {:induction false} StopsKnown(s: Sys, names: seq<string>, wanted: set<string>, f: Fate)
    ensures var t := StopPass(s, names, wanted, f).0; t.known == s.known && t.template == s.template
    decreases |names|
  {
    hide Word, FileOf, Loads, IsOurs;
    if names != [] {
      StopsKnown(s, names[..|names| - 1], wanted, f);
    }
  }

  lemma PassKnown(p: Plan, s: Sys, f: Fate)
    ensures var t, v := Prepared(p, s, f).0, Pass(p, s, f).0; v.known == t.known && v.template == t.template
  {
    hide UnitPass, StopPass, Prepared, Wanted, Idle, Live;
    var t := Prepared(p, s, f).0;
    UnitsKnown(p, t, p.units, f);
    var v := UnitPass(p, t, p.units, f).0;
    if f.lists(v.units).Some? {
      StopsKnown(v, f.lists(v.units).value, Wanted(p, v), f);
    }
  }

  /** After a pass whose template can be written the manager knows the plan's template
      exactly when it did before, or the template on disk was another one and the reload
      went through. */
  lemma KnownExact(p: Plan, s: Sys, f: Fate)
    requires f.template
    ensures Pass(p, s, f).0.known == p.template <==>
      s.known == p.template || (s.template != p.template && f.ok(|s.trace|))
  {
    hide Pass;
    PassKnown(p, s, f);
  }

  /** Passes over one plan, each with its own fate. */
  function Passes(p: Plan, s: Sys, fs: seq<Fate>): Sys
    decreases |fs|
  {
    if fs == [] then s else Pass(p, Passes(p, s, fs[..|fs| - 1]), fs[|fs| - 1]).0
  }

  lemma {:induction false} WrittenKnown(p: Plan, s: Sys, fs: seq<Fate>)
    requires s.template == p.template
    ensures var t := Passes(p, s, fs); t.known == s.known && t.template == p.template
    decreases |fs|
  {
    if fs != [] {
      hide Pass;
      WrittenKnown(p, s, fs[..|fs| - 1]);
      PassKnown(p, Passes(p, s, fs[..|fs| - 1]), fs[|fs| - 1]);
    }
  }

  /** A reload that fails after the template was written is lost for good: the template
      on disk is already the plan's, so however many passes follow and whatever they are
      given, the manager keeps the one it knew. */
  lemma FailedReloadSticks(p: Plan, s: Sys, f: Fate, gs: seq<Fate>)
    requires f.template && s.template != p.template && !f.ok(|s.trace|) && s.known != p.template
    ensures var t := Passes(p, Pass(p, s, f).0, gs); t.template == p.template && t.known == s.known != p.template
  {
    hide Pass;
    PassKnown(p, s, f);
    WrittenKnown(p, Pass(p, s, f).0, gs);
  }
}
