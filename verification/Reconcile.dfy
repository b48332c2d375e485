/** Bringing a host onto a plan: one pass over the units, the placements node.toml
    narrowed out, and what is still running.

    The functions give one pass as a step over what the host's manager and file
    system hold; the class takes it command by command. */
module Reconcile {
  import opened Prelude

  datatype Command = Reload | Start(name: string) | Restart(name: string) | ResetFailed(name: string) | Stop(name: string)

  /** template is the unit template on disk and known the one the manager last read;
      units holds the manager's word for each unit, loaded the environment a running
      unit was started with, files the environment file of each unit. */
  datatype Sys = Sys(
    template: string, known: string, files: map<string, string>, units: map<string, string>,
    loaded: map<string, string>, trace: seq<Command>)

  datatype Unit = Unit(id: string, model: string, image: string, env: string)

  /** staged and built give each model's and each deployment's state; built names only
      the deployments whose backend builds. */
  datatype Plan = Plan(
    template: string, units: seq<Unit>, staged: map<string, string>, built: map<string, string>,
    restart: set<string>, outOfPolicy: seq<string>, open: bool)

  /** What the outside decides: whether files and images can be had, whether the n-th
      command succeeds and what its unit does then, and what the manager lists. */
  datatype Fate = Fate(
    template: bool, readable: string -> bool, writable: string -> bool, image: string -> bool,
    ok: nat -> bool, after: (nat, Command) -> string, lists: map<string, string> -> Option<seq<string>>)

  datatype Outcome = Outcome(id: string, state: string)

  datatype Report = Report(
    units: seq<Outcome>, restarted: seq<string>, refused: seq<string>, outOfPolicy: seq<string>,
    stopped: seq<string>, errors: nat)

  const PREFIX := "nodary-model@"
  const SUFFIX := ".service"

  function UnitName(id: string): string {
    PREFIX + id + SUFFIX
  }

  predicate IsOurs(name: string) {
    PREFIX <= name
  }

  function Word(s: Sys, name: string): string {
    if name in s.units then s.units[name] else "inactive"
  }

  predicate Active(s: Sys, name: string) {
    Word(s, name) == "active"
  }

  /** A unit on its way up keeps the environment it was started with. */
  predicate Coming(word: string) {
    word in ["active", "activating", "reloading"]
  }

  function FileOf(s: Sys, name: string): string {
    if name in s.files then s.files[name] else ""
  }

  predicate Loads(s: Sys, c: Command, f: Fate) {
    f.ok(|s.trace|) && (c.Restart? || (c.Start? && !Coming(Word(s, c.name))))
  }

  function Exec(s: Sys, c: Command, f: Fate): Sys {
    if c.Reload? then s.(trace := s.trace + [c], known := if f.ok(|s.trace|) then s.template else s.known)
    else s.(trace := s.trace + [c], units := s.units[c.name := f.after(|s.trace|, c)],
            loaded := if Loads(s, c, f) then s.loaded[c.name := FileOf(s, c.name)] else s.loaded)
  }

  // ---------------------------------------------------------------------
  // One unit.

  /** What a unit waits for, or "" when nothing holds it back. */
  function Gate(p: Plan, u: Unit, f: Fate): string {
    if u.model !in p.staged || p.staged[u.model] != "staged" then "staging"
    else if u.id in p.built && p.built[u.id] != "prepared" then
      if p.built[u.id] == "failed" then "failed" else "preparing"
    else if !f.image(u.image) then "preparing"
    else ""
  }

  predicate Changed(s: Sys, u: Unit) {
    UnitName(u.id) !in s.files || s.files[UnitName(u.id)] != u.env
  }

  function Written(s: Sys, u: Unit): Sys {
    if Changed(s, u) then s.(files := s.files[UnitName(u.id) := u.env]) else s
  }

  function Settle(s: Sys, u: Unit): Outcome {
    Outcome(u.id, if Active(s, UnitName(u.id)) then "starting" else "stopped")
  }

  /** Starts a unit that is down, clearing a failure first. */
  function Raise(s: Sys, name: string, f: Fate): (Sys, bool) {
    if Word(s, name) == "failed" then
      var t := Exec(s, ResetFailed(name), f);
      if !f.ok(|s.trace|) then (t, false) else (Exec(t, Start(name), f), f.ok(|t.trace|))
    else (Exec(s, Start(name), f), f.ok(|s.trace|))
  }

  function ReconcileUnit(p: Plan, s: Sys, u: Unit, f: Fate): (Sys, Outcome, bool) {
    var name, gate, forced := UnitName(u.id), Gate(p, u, f), u.id in p.restart;
    if gate != "" then (s, Outcome(u.id, gate), false)
    else if !f.readable(name) || (Changed(s, u) && !f.writable(name)) then (s, Outcome(u.id, "failed"), false)
    else
      var t := Written(s, u);
      if Word(t, name) == "failed" && !forced then (t, Outcome(u.id, "failed"), false)
      else if Active(t, name) then
        if !Changed(s, u) && !forced then (t, Settle(t, u), forced)
        else
          var v := Exec(t, Restart(name), f);
          if f.ok(|t.trace|) then (v, Settle(v, u), forced) else (v, Outcome(u.id, "failed"), false)
      else
        var (v, up) := Raise(t, name, f);
        if up then (v, Settle(v, u), forced) else (v, Outcome(u.id, "failed"), false)
  }

  // ---------------------------------------------------------------------
  // One pass.

  /** The units of a plan, in order. */
  function UnitPass(p: Plan, s: Sys, us: seq<Unit>, f: Fate): (Sys, seq<Outcome>, seq<string>)
    decreases |us|
  {
    if us == [] then (s, [], [])
    else
      var u := us[|us| - 1];
      var (t, outs, done) := UnitPass(p, s, us[..|us| - 1], f);
      var (v, out, restarted) := ReconcileUnit(p, t, u, f);
      (v, outs + [out], if restarted then done + [u.id] else done)
  }

  function Names(us: seq<Unit>): (ns: set<string>)
    ensures forall n :: n in ns <==> exists u :: u in us && UnitName(u.id) == n
  {
    if us == [] then {} else Names(us[..|us| - 1]) + {UnitName(us[|us| - 1].id)}
  }

  function Running(s: Sys, vs: seq<string>): (ns: set<string>)
    ensures forall n :: n in ns <==> exists v :: v in vs && UnitName(v) == n && Active(s, n)
  {
    if vs == [] then {}
    else Running(s, vs[..|vs| - 1]) + if Active(s, UnitName(vs[|vs| - 1])) then {UnitName(vs[|vs| - 1])} else {}
  }

  /** What the stop loop leaves alone: the plan's units, and outside the maintenance
      window whatever is out of policy and running. */
  function Wanted(p: Plan, s: Sys): set<string> {
    Names(p.units) + if p.open then {} else Running(s, p.outOfPolicy)
  }

  function Idle(s: Sys, vs: seq<string>): seq<string> {
    if vs == [] then []
    else Idle(s, vs[..|vs| - 1]) + if Active(s, UnitName(vs[|vs| - 1])) then [] else [vs[|vs| - 1]]
  }

  function Live(s: Sys, vs: seq<string>): seq<string> {
    if vs == [] then []
    else Live(s, vs[..|vs| - 1]) + if Active(s, UnitName(vs[|vs| - 1])) then [vs[|vs| - 1]] else []
  }

  /** Stops what is listed and not wanted, in the order listed. */
  function StopPass(s: Sys, names: seq<string>, wanted: set<string>, f: Fate): (r: (Sys, seq<string>))
    ensures |r.0.trace| >= |s.trace| + |r.1|
    decreases |names|
  {
    if names == [] then (s, [])
    else
      var name := names[|names| - 1];
      var (t, stopped) := StopPass(s, names[..|names| - 1], wanted, f);
      if !IsOurs(name) || name in wanted then (t, stopped)
      else (Exec(t, Stop(name), f), if f.ok(|t.trace|) then stopped + [name] else stopped)
  }

  /** The unit template, and a reload when it changed; None when either failed. */
  function Prepared(p: Plan, s: Sys, f: Fate): (Sys, bool) {
    if !f.template then (s, false)
    else if s.template == p.template then (s, true)
    else
      var t := s.(template := p.template);
      (Exec(t, Reload, f), f.ok(|t.trace|))
  }

  const NOTHING := Report([], [], [], [], [], 1)

  function Pass(p: Plan, s: Sys, f: Fate): (Sys, Report) {
    var (t, ready) := Prepared(p, s, f);
    if !ready then (t, NOTHING)
    else
      var (v, outs, done) := UnitPass(p, t, p.units, f);
      var idle, live := Idle(v, p.outOfPolicy), Live(v, p.outOfPolicy);
      var listed := f.lists(v.units);
      if listed.None? then (v, Report(outs, done, idle, live, [], 1))
      else
        var (x, stopped) := StopPass(v, listed.value, Wanted(p, v), f);
        (x, Report(outs, done, idle, live, stopped, |x.trace| - |v.trace| - |stopped|))
  }

  // ---------------------------------------------------------------------
  // Command by command.

  class Host {
    var template: string
    var files: map<string, string>
    var units: map<string, string>
    var trace: seq<Command>
    ghost var loaded: map<string, string>
    ghost var known: string

    ghost function View(): Sys
      reads this
    {
      Sys(template, known, files, units, loaded, trace)
    }

    constructor (template: string, files: map<string, string>, units: map<string, string>, ghost known: string,
        ghost loaded: map<string, string>)
      ensures View() == Sys(template, known, files, units, loaded, [])
    {
      this.template, this.files, this.units, trace := template, files, units, [];
      this.known, this.loaded := known, loaded;
    }

    /** One command, and what the manager makes of it. */
    method Systemctl(c: Command, f: Fate) returns (ok: bool)
      modifies this
      ensures View() == Exec(old(View()), c, f) && ok == f.ok(|old(trace)|)
    {
      ghost var was := View();
      ok := f.ok(|trace|);
      if !c.Reload? {
        if Loads(was, c, f) {
          loaded := loaded[c.name := FileOf(was, c.name)];
        }
        units := units[c.name := f.after(|trace|, c)];
      } else if ok {
        known := template;
      }
      trace := trace + [c];
    }

    method ActiveState(name: string) returns (word: string)
      ensures word == Word(View(), name)
    {
      word := if name in units then units[name] else "inactive";
    }

    /** Writes the environment file only when it differs. */
    method WriteEnvFile(u: Unit, f: Fate) returns (changed: bool, ok: bool)
      modifies `files
      ensures changed == Changed(old(View()), u)
      ensures ok == (f.readable(UnitName(u.id)) && (!changed || f.writable(UnitName(u.id))))
      ensures View() == if ok then Written(old(View()), u) else old(View())
    {
      var name := UnitName(u.id);
      changed := name !in files || files[name] != u.env;
      ok := f.readable(name) && (!changed || f.writable(name));
      if ok && changed {
        files := files[name := u.env];
      }
    }

    method Bring(p: Plan, u: Unit, f: Fate) returns (out: Outcome, restarted: bool)
      modifies this
      ensures (View(), out, restarted) == ReconcileUnit(p, old(View()), u, f)
    {
      hide Exec, Word;
      var name, forced := UnitName(u.id), u.id in p.restart;
      var gate := Gate(p, u, f);
      if gate != "" {
        return Outcome(u.id, gate), false;
      }
      var changed, written := WriteEnvFile(u, f);
      if !written {
        return Outcome(u.id, "failed"), false;
      }
      var word := ActiveState(name);
      if word == "failed" && !forced {
        return Outcome(u.id, "failed"), false;
      }
      if (changed || forced) && word == "active" {
        var ok := Systemctl(Restart(name), f);
        if !ok {
          return Outcome(u.id, "failed"), false;
        }
      } else if word != "active" {
        if word == "failed" {
          var cleared := Systemctl(ResetFailed(name), f);
          if !cleared {
            return Outcome(u.id, "failed"), false;
          }
        }
        var ok := Systemctl(Start(name), f);
        if !ok {
          return Outcome(u.id, "failed"), false;
        }
      }
      var now := ActiveState(name);
      return Outcome(u.id, if now == "active" then "starting" else "stopped"), forced;
    }

    /** Stops what is listed and not wanted. */
    method StopOthers(listed: seq<string>, wanted: set<string>, f: Fate) returns (stopped: seq<string>, failures: nat)
      modifies this
      ensures (View(), stopped) == StopPass(old(View()), listed, wanted, f)
      ensures failures == |trace| - old(|trace|) - |stopped|
    {
      hide Word, FileOf, Loads;
      stopped, failures := [], 0;
      var i := 0;
      while i < |listed|
        invariant 0 <= i <= |listed|
        invariant (View(), stopped) == StopPass(old(View()), listed[..i], wanted, f)
        invariant failures == |trace| - old(|trace|) - |stopped|
      {
        assert listed[..i + 1][..i] == listed[..i];
        var name := listed[i];
        if IsOurs(name) && name !in wanted {
          var ok := Systemctl(Stop(name), f);
          if ok {
            stopped := stopped + [name];
          } else {
            failures := failures + 1;
          }
        }
        i := i + 1;
      }
      assert listed[..i] == listed;
    }

    /** Units out of policy: left running outside the window, refused when idle. */
    method SortOutOfPolicy(vs: seq<string>, open: bool, planned: set<string>)
      returns (wanted: set<string>, live: seq<string>, idle: seq<string>)
      ensures wanted == planned + if open then {} else Running(View(), vs)
      ensures live == Live(View(), vs) && idle == Idle(View(), vs)
    {
      hide Word;
      wanted, live, idle := planned, [], [];
      var i := 0;
      while i < |vs|
        invariant 0 <= i <= |vs|
        invariant wanted == planned + if open then {} else Running(View(), vs[..i])
        invariant live == Live(View(), vs[..i]) && idle == Idle(View(), vs[..i])
      {
        var v := vs[i];
        assert vs[..i + 1][..i] == vs[..i];
        var word := ActiveState(UnitName(v));
        if word != "active" {
          idle := idle + [v];
        } else {
          if !open {
            wanted := wanted + {UnitName(v)};
          }
          live := live + [v];
        }
        i := i + 1;
      }
      assert vs[..i] == vs;
    }

    method BringAll(p: Plan, f: Fate) returns (outs: seq<Outcome>, done: seq<string>, planned: set<string>)
      modifies this
      ensures (View(), outs, done) == UnitPass(p, old(View()), p.units, f) && planned == Names(p.units)
    {
      hide Exec, ReconcileUnit, UnitName;
      outs, done, planned := [], [], {};
      var i := 0;
      while i < |p.units|
        invariant 0 <= i <= |p.units|
        invariant (View(), outs, done) == UnitPass(p, old(View()), p.units[..i], f)
        invariant planned == Names(p.units[..i])
      {
        var u := p.units[i];
        assert p.units[..i + 1][..i] == p.units[..i];
        var out, restarted := Bring(p, u, f);
        outs := outs + [out];
        if restarted {
          done := done + [u.id];
        }
        planned := planned + {UnitName(u.id)};
        i := i + 1;
      }
      assert p.units[..i] == p.units;
    }

    /** One pass over the host. */
    method Converge(p: Plan, f: Fate) returns (r: Report)
      modifies this
      ensures (View(), r) == Pass(p, old(View()), f)
    {
      hide Exec, UnitPass, StopPass, Names, Running, Idle, Live;
      if !f.template {
        return NOTHING;
      }
      if template != p.template {
        template := p.template;
        var ok := Systemctl(Reload, f);
        if !ok {
          return NOTHING;
        }
      }
      var outs, done, planned := BringAll(p, f);
      var wanted, live, idle := SortOutOfPolicy(p.outOfPolicy, p.open, planned);
      var listed := f.lists(units);
      if listed.None? {
        return Report(outs, done, idle, live, [], 1);
      }
      var stopped, failures := StopOthers(listed.value, wanted, f);
      r := Report(outs, done, idle, live, stopped, failures);
    }
  }
}
