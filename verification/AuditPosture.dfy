/** What the posture is worth when calls overlap. */
module AuditPosture {
  import opened Prelude
  import opened JsonValue
  import opened AuditRecord
  import opened AuditChain
  import opened AuditLog
  import opened AuditRuns
  import opened AuditSteps
  import AuditOverlap

  // ---------------------------------------------------------------------
  // The failing set.

  /** What was last noted of a sink of this name. */
  function LastNote(names: seq<string>, notes: seq<(nat, bool)>, n: string): Option<bool>
    decreases |notes|
  {
    if notes == [] then None
    else
      var (k, took) := notes[|notes| - 1];
      if k < |names| && names[k] == n then Some(took) else LastNote(names, notes[..|notes| - 1], n)
  }

  lemma LastNoteSnoc(names: seq<string>, notes: seq<(nat, bool)>, k: nat, took: bool, n: string)
    requires k < |names|
    ensures LastNote(names, notes + [(k, took)], n) == if names[k] == n then Some(took) else LastNote(names, notes, n)
  {
    assert (notes + [(k, took)])[..|notes|] == notes;
  }

  /** In every run the failing set is exactly the names of which it was last noted, by
      whichever call, that a record was not taken. */
  lemma {:induction false} FailingExact<S>(u: Setup, state: S, es: seq<Event<S>>, n: string)
    ensures var p := Overlap(u, state, es); n in p.w.failing <==> LastNote(u.sinks, p.notes, n) == Some(false)
    decreases |es|
  {
    if es == [] {
    } else {
      hide Do;
      FailingExact(u, state, es[..|es| - 1], n);
      FailingStep(u, Overlap(u, state, es[..|es| - 1]), es[|es| - 1], n);
    }
  }

  lemma FailingStep<S>(u: Setup, p: Plant<S>, e: Event<S>, n: string)
    requires n in p.w.failing <==> LastNote(u.sinks, p.notes, n) == Some(false)
    ensures var q := Do(u, p, e); n in q.w.failing <==> LastNote(u.sinks, q.notes, n) == Some(false)
  {
    hide Append, Transact, EntryOf, LastNote;
    if e.Move? && e.i < |p.flights| {
      var x := p.flights[e.i];
      assert p.notes + [] == p.notes;
      if x.stage.Emitting? && x.stage.told && Offers(u, x.stage.r, x.stage.k) {
        LastNoteSnoc(u.sinks, p.notes, x.stage.k, x.call.fate.takes(x.stage.k), n);
      }
    }
  }

  /** Of no sink name a failure was noted last. */
  ghost predicate Clear(u: Setup, notes: seq<(nat, bool)>) {
    forall n :: LastNote(u.sinks, notes, n) != Some(false)
  }

  lemma ClearExact<S>(u: Setup, state: S, es: seq<Event<S>>)
    ensures var p := Overlap(u, state, es); Clear(u, p.notes) <==> p.w.failing == {}
  {
    var p := Overlap(u, state, es);
    forall n ensures n in p.w.failing <==> LastNote(u.sinks, p.notes, n) == Some(false) {
      FailingExact(u, state, es, n);
    }
    if p.w.failing != {} {
      var n :| n in p.w.failing;
      assert LastNote(u.sinks, p.notes, n) == Some(false);
    }
  }

  /** A call that arrives is let through exactly when the posture is to warn or of no sink
      name a failure was noted last. */
  lemma LetThrough<S>(u: Setup, state: S, es: seq<Event<S>>, c: Call<S>)
    ensures var p := Overlap(u, state, es);
      var q := Overlap(u, state, es + [Enter(c)]);
      && |q.flights| == |p.flights| + 1 && q.flights[|p.flights|].call == c
      && (q.flights[|p.flights|].stage == Running <==> !u.block || Clear(u, p.notes))
  {
    hide Clear;
    assert (es + [Enter(c)])[..|es|] == es;
    ClearExact(u, state, es);
  }

  // ---------------------------------------------------------------------
  // When a body runs.

  lemma {:induction false} LastNoteBoth(names: seq<string>, a: seq<(nat, bool)>, b: seq<(nat, bool)>, n: string)
    ensures LastNote(names, a + b, n) ==
      if LastNote(names, b, n).Some? then LastNote(names, b, n) else LastNote(names, a, n)
    decreases |b|
  {
    if b == [] {
      assert a + b == a;
    } else {
      assert (a + b)[..|a + b| - 1] == a + b[..|b| - 1];
      LastNoteBoth(names, a, b[..|b| - 1], n);
    }
  }

  lemma ClearBoth(u: Setup, a: seq<(nat, bool)>, b: seq<(nat, bool)>)
    requires Clear(u, a)
    ensures Clear(u, a + b) <==> Clear(u, b)
  {
    forall n ensures LastNote(u.sinks, a + b, n) == Some(false) <==> LastNote(u.sinks, b, n) == Some(false) {
      LastNoteBoth(u.sinks, a, b, n);
    }
  }

  lemma {:induction false} NotesGrow<S>(u: Setup, state: S, es: seq<Event<S>>, t: nat)
    requires t <= |es|
    ensures Overlap(u, state, es[..t]).notes <= Overlap(u, state, es).notes
    decreases |es|
  {
    if t == |es| {
      assert es[..t] == es;
    } else {
      hide Advance;
      assert es[..|es| - 1][..t] == es[..t];
      NotesGrow(u, state, es[..|es| - 1], t);
    }
  }

  lemma RunningStep<S>(u: Setup, p: Plant<S>, e: Event<S>, m: nat)
    requires m < |Do(u, p, e).flights| && Do(u, p, e).flights[m].stage == Running
    ensures if m < |p.flights| then p.flights[m].stage == Running
            else e.Enter? && m == |p.flights| && Entered(u, p.w) == Running
  {
    hide Append, Transact, EntryOf;
  }

  /** A call that is let through was so when it arrived. */
  lemma {:induction false} Arrived<S>(u: Setup, state: S, es: seq<Event<S>>, m: nat) returns (t: nat)
    requires m < |Overlap(u, state, es).flights| && Overlap(u, state, es).flights[m].stage == Running
    ensures t < |es| && es[t].Enter?
    ensures var p := Overlap(u, state, es[..t]); |p.flights| == m && Entered(u, p.w) == Running
    decreases |es|
  {
    hide Do, Entered;
    var before := es[..|es| - 1];
    RunningStep(u, Overlap(u, state, before), es[|es| - 1], m);
    if m < |Overlap(u, state, before).flights| {
      t := Arrived(u, state, before, m);
      assert before[..t] == es[..t];
    } else {
      t := |es| - 1;
    }
  }

  lemma RunsStep<S>(u: Setup, p: Plant<S>, e: Event<S>)
    ensures Do(u, p, e).w.runs != p.w.runs <==>
      e.Move? && e.i < |p.flights| && p.flights[e.i].stage == Running && p.flights[e.i].call.fate.begun
    ensures Do(u, p, e).w.runs <= p.w.runs + 1
  {
    hide Append, Transact, EntryOf;
  }

  /** Whenever a body runs under the blocking posture, nothing was failing when its call
      arrived, at t; and as its transaction begins something is failing exactly when
      among what was noted since then the last word on some name is a failure. */
  lemma BodyRunsExact<S>(u: Setup, state: S, es: seq<Event<S>>, e: Event<S>) returns (t: nat)
    requires u.block && Do(u, Overlap(u, state, es), e).w.runs != Overlap(u, state, es).w.runs
    ensures e.Move? && t < |es| && es[t].Enter? && |Overlap(u, state, es[..t]).flights| == e.i
    ensures var p, q := Overlap(u, state, es[..t]), Overlap(u, state, es);
      && p.w.failing == {} && p.notes <= q.notes
      && (q.w.failing == {} <==> Clear(u, q.notes[|p.notes|..]))
  {
    hide Do, Clear;
    var q := Overlap(u, state, es);
    RunsStep(u, q, e);
    t := Arrived(u, state, es, e.i);
    var p := Overlap(u, state, es[..t]);
    NotesGrow(u, state, es, t);
    ClearExact(u, state, es[..t]);
    ClearExact(u, state, es);
    ClearBoth(u, p.notes, q.notes[|p.notes|..]);
    assert p.notes + q.notes[|p.notes|..] == q.notes;
  }

  /** And it happens: of two calls that arrive at a fresh log, the second commits, fails
      at the first sink, and the first one's body runs with that noted. */
  lemma BodyRunsAnyway<S>(u: Setup, state: S, a: Call<S>, b: Call<S>)
    requires HashBlind(u.codec) && AuditRuns.Printed(u.codec)
    requires u.block && u.sinks != [] && a.fate.begun && b.fate.begun && !b.fate.takes(0)
    requires Transact(u, Db(state, [], None), b.now, b.req, b.body(state), b.fate).Some?
    ensures var q := Overlap(u, state, [Enter(a), Enter(b), Move(1), Move(1), Move(1)]);
      q.w.failing != {} && Do(u, q, Move(0)).w.runs == q.w.runs + 1
  {
    hide Transact, EntryOf, Append;
    var es := [Enter(a), Enter(b), Move(1), Move(1), Move(1)];
    var p0 := Idle(u, state);
    var p2 := Do(u, Do(u, p0, Enter(a)), Enter(b));
    assert p2.w == p0.w && p2.flights == [Flight(a, Running), Flight(b, Running)];
    FirstCommit(u, state, b);
    var p3 := Do(u, p2, Move(1));
    var r := p3.flights[1].stage.r;
    assert p3.flights == [Flight(a, Running), Flight(b, p3.flights[1].stage)] && Offers(u, r, 0);
    var p4 := Do(u, p3, Move(1));
    var p5 := Do(u, p4, Move(1));
    assert u.sinks[0] in p5.w.failing && p5.flights[0] == Flight(a, Running);
    FiveSteps(u, state, es);
    RunsStep(u, p5, Move(0));
  }

  lemma FiveSteps<S>(u: Setup, state: S, es: seq<Event<S>>)
    requires |es| == 5
    ensures Overlap(u, state, es) ==
      Do(u, Do(u, Do(u, Do(u, Do(u, Idle(u, state), es[0]), es[1]), es[2]), es[3]), es[4])
  {
    hide Do;
    assert es[..4][..3] == es[..3] && es[..3][..2] == es[..2] && es[..2][..1] == es[..1] && es[..1][..0] == [];
    assert Overlap(u, state, es[..1]) == Do(u, Idle(u, state), es[0]);
    assert Overlap(u, state, es[..2]) == Do(u, Overlap(u, state, es[..1]), es[1]);
    assert Overlap(u, state, es[..3]) == Do(u, Overlap(u, state, es[..2]), es[2]);
    assert Overlap(u, state, es[..4]) == Do(u, Overlap(u, state, es[..3]), es[3]);
  }

  /** The first call of all commits a record that can be handed on. */
  lemma FirstCommit<S>(u: Setup, state: S, b: Call<S>)
    requires HashBlind(u.codec) && AuditRuns.Printed(u.codec) && b.fate.begun && u.sinks != []
    requires Transact(u, Db(state, [], None), b.now, b.req, b.body(state), b.fate).Some?
    ensures var (w, stage) := Attempts(u, Fresh(u, state), b);
      w.failing == {} && stage.Emitting? && stage.k == 0 && !stage.told && Offers(u, stage.r, 0)
  {
    hide AppendTx, HashBlind, EntryOf;
    var a := b.body(state);
    var text := if a.err.Some? then Some(a.err.value.text) else None;
    var db := Db(state, [], None);
    assert Linked(u.codec, db);
    AppendHonest(u.codec, db, a.state, b.fate.mint, EntryOf(b.now, b.req, OutcomeOf(a.err), a.detail, text), b.fate.inserted);
    var after := Transact(u, db, b.now, b.req, a, b.fate).value;
    assert LinkedAt(u.codec, after, 0);
  }
}
