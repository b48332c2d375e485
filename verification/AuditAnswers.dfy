/** What a call's answer says, when the calls overlap. */
module AuditAnswers {
  import opened Prelude
  import opened JsonValue
  import opened AuditRecord
  import opened AuditChain
  import opened AuditLog
  import opened AuditRuns
  import opened AuditSteps
  import AuditOverlap

  predicate RowOf(rows: seq<Rec>, r: Rec) {
    1 <= r.seqNo <= |rows| && rows[r.seqNo - 1] == r
  }

  /** What a call has in hand, or has answered, is in the table; it reports no error
      exactly when its record says "success", and never neither record nor error. */
  predicate Truthful(rows: seq<Rec>, s: Stage) {
    match s
    case Recording(e, errors) => errors != {} && !e.outcome.Success?
    case Emitting(r, _, _, errors) => RowOf(rows, r) && (errors == {} <==> r.body.outcome == "success")
    case Done(out) =>
      if out.record.None? then out.errors != {}
      else RowOf(rows, out.record.value) && (out.errors == {} <==> out.record.value.body.outcome == "success")
    case _ => true
  }

  predicate AllTruthful<S>(p: Plant<S>) {
    forall j | 0 <= j < |p.flights| :: Truthful(p.w.db.rows, p.flights[j].stage)
  }

  lemma TruthStays(rows: seq<Rec>, more: seq<Rec>, s: Stage)
    requires Truthful(rows, s) && rows <= more
    ensures Truthful(more, s)
  {
  }

  lemma SetsTrue<S>(c: Codec, w: World<S>, after: Db<S>, errors: set<Fault>)
    requires Linked(c, after) && Honest(Commit(w.db, after))
    requires errors == {} <==> after.rows[|w.db.rows|].body.outcome == "success"
    ensures after.rows != []
    ensures var (v, stage) := Sets(w, after, errors); Truthful(v.db.rows, stage) && w.db.rows <= v.db.rows
  {
    assert LinkedAt(c, after, |w.db.rows|);
  }

  lemma RecordsTrue<S>(u: Setup, w: World<S>, e: Entry, f: Fate, errors: set<Fault>)
    requires HashBlind(u.codec) && Linked(u.codec, w.db) && errors != {} && !e.outcome.Success?
    ensures var (v, stage) := Records(u, w, e, f, errors); Truthful(v.db.rows, stage) && w.db.rows <= v.db.rows
  {
    hide AppendTx, Linked, HashBlind;
    assert w.db.(state := w.db.state) == w.db;
    if Append(u, w, e, f).Some? {
      AppendHonest(u.codec, w.db, w.db.state, f.mint, e, f.recorded);
      SetsTrue(u.codec, w, Append(u, w, e, f).value, errors);
    }
  }

  lemma AttemptsTrue<S>(u: Setup, w: World<S>, c: Call<S>)
    requires HashBlind(u.codec) && Linked(u.codec, w.db)
    ensures var (v, stage) := Attempts(u, w, c); Truthful(v.db.rows, stage) && w.db.rows <= v.db.rows
  {
    hide AppendTx, Linked, HashBlind;
    if c.fate.begun {
      var a := c.body(w.db.state);
      if Transact(u, w.db, c.now, c.req, a, c.fate).Some? {
        var text := if a.err.Some? then Some(a.err.value.text) else None;
        AppendHonest(u.codec, w.db, a.state, c.fate.mint,
                     EntryOf(c.now, c.req, OutcomeOf(a.err), a.detail, text), c.fate.inserted);
        SetsTrue(u.codec, w.(runs := w.runs + 1), Transact(u, w.db, c.now, c.req, a, c.fate).value,
                 if a.err.Some? then {Mutation} else {});
      }
    }
  }

  lemma AdvanceTrue<S>(u: Setup, w: World<S>, x: Flight<S>)
    requires HashBlind(u.codec) && Linked(u.codec, w.db) && Truthful(w.db.rows, x.stage)
    ensures var (v, stage) := Advance(u, w, x); Truthful(v.db.rows, stage) && w.db.rows <= v.db.rows
  {
    hide Records, Attempts, Linked, HashBlind;
    var c := x.call;
    match x.stage
    case Refusing => RecordsTrue(u, w, EntryOf(c.now, c.req, Failure, map[], Some(c.fate.why)), c.fate, {Refused});
    case Running => AttemptsTrue(u, w, c);
    case Recording(e, errors) => RecordsTrue(u, w, e, c.fate, errors);
    case _ =>
  }

  /** After every interleaving: a call answered without an error has its record in the
      table, and the record says "success"; one answered with an error and a record has
      it there saying otherwise; and one answered with no record reports an error. */
  lemma {:induction false} AnswersTrue<S>(u: Setup, state: S, es: seq<Event<S>>)
    requires HashBlind(u.codec)
    ensures AllTruthful(Overlap(u, state, es))
    decreases |es|
  {
    if es == [] {
    } else {
      hide Truthful, Advance, HashBlind, Linked;
      var p, e := Overlap(u, state, es[..|es| - 1]), es[|es| - 1];
      AnswersTrue(u, state, es[..|es| - 1]);
      AuditOverlap.OverlapKeeps(u, state, es[..|es| - 1]);
      AuditOverlap.InvLinked(u, state, p);
      match e
      case Enter(c) => EnteredTrue(u, p.w);
      case Move(i) =>
        if i < |p.flights| {
          AdvanceTrue(u, p.w, p.flights[i]);
          var q := Do(u, p, e);
          forall j | 0 <= j < |q.flights| ensures Truthful(q.w.db.rows, q.flights[j].stage) {
            if j != i {
              TruthStays(p.w.db.rows, q.w.db.rows, p.flights[j].stage);
            }
          }
        }
    }
  }

  lemma EnteredTrue<S>(u: Setup, w: World<S>)
    ensures Truthful(w.db.rows, Entered(u, w))
  {
  }
}
