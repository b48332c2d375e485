/** What the rows say of the calls, when the calls overlap. */
module AuditSaid {
  import opened Prelude
  import opened JsonValue
  import opened AuditRecord
  import opened AuditChain
  import opened AuditLog
  import opened AuditRuns
  import opened AuditSteps

  /** What a record of c may say: that it was refused, or what its body, run on some
      state, reported. */
  ghost predicate Tells<S(!new)>(r: Rec, c: Call<S>) {
    || Said(r, c.now, c.req, "failure", map["error" := Str(c.fate.why)])
    || exists s: S :: TellsOf(r, c, c.body(s))
  }

  predicate TellsOf<S>(r: Rec, c: Call<S>, a: Attempt<S>) {
    if a.err.None? then Said(r, c.now, c.req, "success", a.detail)
    else if !a.err.value.partial then Said(r, c.now, c.req, "failure", a.detail["error" := Str(a.err.value.text)])
    else
      || Said(r, c.now, c.req, "partial", a.detail["error" := Str(a.err.value.text)])
      || Said(r, c.now, c.req, "partial", a.detail["error" := Str(a.err.value.text + "\n" + c.fate.why)])
  }

  /** An entry about to be recorded for c. */
  ghost predicate Drafts<S(!new)>(e: Entry, c: Call<S>) {
    exists s: S :: DraftsOf(e, c, c.body(s))
  }

  predicate DraftsOf<S>(e: Entry, c: Call<S>, a: Attempt<S>) {
    && a.err.Some?
    && e == EntryOf(c.now, c.req, OutcomeOf(a.err), a.detail,
                    Some(if a.err.value.partial then a.err.value.text + "\n" + c.fate.why else a.err.value.text))
  }

  /** What a call has in hand or has answered is its own record. */
  ghost predicate Owns<S(!new)>(x: Flight<S>) {
    match x.stage
    case Recording(e, _) => Drafts(e, x.call)
    case Emitting(r, _, _, _) => Tells(r, x.call)
    case Done(out) => out.record.Some? ==> Tells(out.record.value, x.call)
    case _ => true
  }

  /** Some call that arrived is what the row tells of. */
  ghost predicate Told<S(!new)>(p: Plant<S>, r: Rec) {
    exists j | 0 <= j < |p.flights| :: Tells(r, p.flights[j].call)
  }

  ghost predicate AllTold<S(!new)>(p: Plant<S>) {
    && (forall k | 0 <= k < |p.w.db.rows| :: Told(p, p.w.db.rows[k]))
    && forall j | 0 <= j < |p.flights| :: Owns(p.flights[j])
  }

  /** One step of one call: at most one row more, its own, and what it then has in hand is
      its own too. */
  ghost predicate StepTells<S(!new)>(w: World<S>, x: Flight<S>, v: World<S>, stage: Stage) {
    && Owns(x.(stage := stage))
    && (v.db.rows == w.db.rows
        || (|v.db.rows| == |w.db.rows| + 1 && v.db.rows[..|w.db.rows|] == w.db.rows && Tells(v.db.rows[|w.db.rows|], x.call)))
  }

  lemma AppendOne<S>(c: Codec, db: Db<S>, mint: string, e: Entry, inserted: bool)
    requires AppendTx(c, db, mint, e, inserted).Some?
    ensures var t := AppendTx(c, db, mint, e, inserted).value;
      |t.rows| == |db.rows| + 1 && t.rows[..|db.rows|] == db.rows
  {
  }

  lemma RefusalTells<S(!new)>(u: Setup, w: World<S>, x: Flight<S>)
    ensures var c := x.call;
      var (v, stage) := Records(u, w, EntryOf(c.now, c.req, Failure, map[], Some(c.fate.why)), c.fate, {Refused});
      StepTells(w, x, v, stage)
  {
    hide AppendTx, EntryOf, Said;
    var c := x.call;
    var e := EntryOf(c.now, c.req, Failure, map[], Some(c.fate.why));
    if Append(u, w, e, c.fate).Some? {
      AppendOne(u.codec, w.db, c.fate.mint, e, c.fate.recorded);
      AppendSays(u.codec, w.db, c.fate.mint, c.fate.recorded, c.now, c.req, Failure, map[], Some(c.fate.why));
    }
  }

  lemma DraftTells<S(!new)>(u: Setup, w: World<S>, x: Flight<S>, e: Entry, errors: set<Fault>)
    requires Drafts(e, x.call)
    ensures var (v, stage) := Records(u, w, e, x.call.fate, errors); StepTells(w, x, v, stage)
  {
    hide AppendTx, EntryOf, Said;
    var c := x.call;
    var s: S :| DraftsOf(e, c, c.body(s));
    var a := c.body(s);
    var text := if a.err.value.partial then a.err.value.text + "\n" + c.fate.why else a.err.value.text;
    if Append(u, w, e, c.fate).Some? {
      AppendOne(u.codec, w.db, c.fate.mint, e, c.fate.recorded);
      AppendSays(u.codec, w.db, c.fate.mint, c.fate.recorded, c.now, c.req, OutcomeOf(a.err), a.detail, Some(text));
      assert TellsOf(Append(u, w, e, c.fate).value.rows[|w.db.rows|], c, c.body(s));
    }
  }

  lemma AttemptTells<S(!new)>(u: Setup, w: World<S>, x: Flight<S>)
    ensures var (v, stage) := Attempts(u, w, x.call); StepTells(w, x, v, stage)
  {
    hide AppendTx, EntryOf, Said;
    var c := x.call;
    if c.fate.begun {
      var a := c.body(w.db.state);
      if Transact(u, w.db, c.now, c.req, a, c.fate).Some? {
        var text := if a.err.Some? then Some(a.err.value.text) else None;
        var db := w.db.(state := a.state);
        AppendOne(u.codec, db, c.fate.mint, EntryOf(c.now, c.req, OutcomeOf(a.err), a.detail, text), c.fate.inserted);
        AppendSays(u.codec, db, c.fate.mint, c.fate.inserted, c.now, c.req, OutcomeOf(a.err), a.detail, text);
        assert TellsOf(Transact(u, w.db, c.now, c.req, a, c.fate).value.rows[|w.db.rows|], c, c.body(w.db.state));
      } else if a.err.Some? {
        var e := EntryOf(c.now, c.req, OutcomeOf(a.err), a.detail, Some(Cause(a.err.value, c.fate.why).0));
        assert DraftsOf(e, c, c.body(w.db.state));
      }
    }
  }

  lemma AdvanceTells<S(!new)>(u: Setup, w: World<S>, x: Flight<S>)
    requires Owns(x)
    ensures var (v, stage) := Advance(u, w, x); StepTells(w, x, v, stage)
  {
    hide Tells, Drafts, Attempts, Records, EntryOf;
    match x.stage
    case Refusing => RefusalTells(u, w, x);
    case Running => AttemptTells(u, w, x);
    case Recording(e, errors) => DraftTells(u, w, x, e, errors);
    case _ =>
  }

  lemma DoTells<S(!new)>(u: Setup, p: Plant<S>, e: Event<S>)
    requires AllTold(p)
    ensures AllTold(Do(u, p, e))
  {
    hide Tells, Advance, Drafts;
    var q := Do(u, p, e);
    if e.Move? && e.i < |p.flights| {
      var x := p.flights[e.i];
      AdvanceTells(u, p.w, x);
    }
    assert |q.flights| >= |p.flights| && forall j | 0 <= j < |p.flights| :: q.flights[j].call == p.flights[j].call;
    forall k | 0 <= k < |q.w.db.rows| ensures Told(q, q.w.db.rows[k]) {
      if k < |p.w.db.rows| {
        assert q.w.db.rows[k] == p.w.db.rows[k];
        var j :| 0 <= j < |p.flights| && Tells(p.w.db.rows[k], p.flights[j].call);
        assert Tells(q.w.db.rows[k], q.flights[j].call);
      } else {
        assert Tells(q.w.db.rows[k], q.flights[e.i].call);
      }
    }
  }

  /** Over every interleaving: each row of the table says all of what some call asked, who
      asked it, when, and how it went; and the record a call answers is one of its own. */
  lemma {:induction false} RowsTell<S(!new)>(u: Setup, state: S, es: seq<Event<S>>)
    ensures AllTold(Overlap(u, state, es))
    decreases |es|
  {
    if es == [] {
    } else {
      hide AllTold, Do;
      RowsTell(u, state, es[..|es| - 1]);
      DoTells(u, Overlap(u, state, es[..|es| - 1]), es[|es| - 1]);
    }
  }
}
