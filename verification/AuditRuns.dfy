/** What every run of audited calls made one after the other keeps, whatever fails along
    the way. */
module AuditRuns {
  import opened Prelude
  import opened JsonValue
  import opened AuditRecord
  import opened ChainVerify
  import opened ChainExact
  import opened ChainFragments
  import opened AuditChain
  import opened AuditLog

  datatype Call<!S> = Call(now: int, req: Request, body: S -> Attempt<S>, fate: Fate)

  function Fresh<S>(u: Setup, state: S): World<S> {
    World(Db(state, [], None), {}, seq(|u.sinks|, i => []), 0, [])
  }

  function Run<S>(u: Setup, w: World<S>, calls: seq<Call<S>>): World<S>
    decreases |calls|
  {
    if calls == [] then w
    else
      var c := calls[|calls| - 1];
      Act(u, Run(u, w, calls[..|calls| - 1]), c.now, c.req, c.body, c.fate).0
  }

  // ---------------------------------------------------------------------
  // The invariant.

  /** One committed transaction: exactly one record more, and a changed state only
      beside a record that does not say "failure". */
  predicate Honest<S(==)>(c: Commit<S>) {
    && |c.after.rows| == |c.before.rows| + 1
    && c.after.rows[..|c.before.rows|] == c.before.rows
    && (c.before.state != c.after.state ==>
          c.after.rows[|c.before.rows|].body.outcome in ["success", "partial"])
  }

  /** The commits lead from the first database to this one, each from where the last
      one left. */
  predicate Leads<S(==)>(first: Db<S>, commits: seq<Commit<S>>, last: Db<S>) {
    && (commits == [] ==> first == last)
    && (commits != [] ==> commits[0].before == first && commits[|commits| - 1].after == last)
    && (forall i | 0 <= i < |commits| - 1 :: commits[i].after == commits[i + 1].before)
    && (forall i | 0 <= i < |commits| :: Honest(commits[i]))
  }

  /** A line a sink took is the line of a committed record. */
  predicate IsRow(u: Setup, rows: seq<Rec>, line: (int, string)) {
    1 <= line.0 <= |rows| && u.codec.line(rows[line.0 - 1]) == Some(line.1)
  }

  predicate Taken(u: Setup, rows: seq<Rec>, lines: seq<(int, string)>) {
    && (forall j | 0 <= j < |lines| :: IsRow(u, rows, lines[j]))
    && (forall i, j | 0 <= i < j < |lines| :: lines[i].0 < lines[j].0)
  }

  ghost predicate Inv<S>(u: Setup, state: S, w: World<S>) {
    && Linked(u.codec, w.db)
    && Leads(Db(state, [], None), w.commits, w.db) && |w.commits| == |w.db.rows|
    && |w.sent| == |u.sinks| && (forall i | 0 <= i < |w.sent| :: Taken(u, w.db.rows, w.sent[i]))
    && (forall n | n in w.failing :: n in u.sinks)
  }

  // ---------------------------------------------------------------------
  // Each step keeps it.

  lemma CommitKeeps<S>(u: Setup, state: S, w: World<S>, after: Db<S>)
    requires Inv(u, state, w) && Linked(u.codec, after) && Honest(Commit(w.db, after))
    ensures Inv(u, state, Committed(w, after))
  {
    var w' := Committed(w, after);
    forall i | 0 <= i < |w.sent| ensures Taken(u, after.rows, w.sent[i]) {
      forall j | 0 <= j < |w.sent[i]| ensures IsRow(u, after.rows, w.sent[i][j]) {
        assert IsRow(u, w.db.rows, w.sent[i][j]);
        assert after.rows[..|w.db.rows|][w.sent[i][j].0 - 1] == w.db.rows[w.sent[i][j].0 - 1];
      }
    }
  }

  /** No sink has yet been sent the last row. */
  predicate Unsent<S>(w: World<S>) {
    forall i, j | 0 <= i < |w.sent| && 0 <= j < |w.sent[i]| :: w.sent[i][j].0 < |w.db.rows|
  }

  lemma CommitUnsent<S>(u: Setup, state: S, w: World<S>, after: Db<S>)
    requires Inv(u, state, w) && |after.rows| == |w.db.rows| + 1
    ensures Unsent(Committed(w, after))
  {
    forall i, j | 0 <= i < |w.sent| && 0 <= j < |w.sent[i]| ensures w.sent[i][j].0 < |after.rows| {
      assert Taken(u, w.db.rows, w.sent[i]);
      assert IsRow(u, w.db.rows, w.sent[i][j]);
    }
  }

  lemma EmitKeeps<S>(u: Setup, state: S, w: World<S>, takes: nat -> bool)
    requires Inv(u, state, w) && Unsent(w) && w.db.rows != []
    ensures Inv(u, state, Emit(u, w, w.db.rows[|w.db.rows| - 1], takes))
  {
    var n := |w.db.rows|;
    var r := w.db.rows[n - 1];
    assert LinkedAt(u.codec, w.db, n - 1);
    hide LinkedAt, Leads, Taken;
    if u.codec.line(r).Some? {
      var w' := Emit(u, w, r, takes);
      var line := (n, u.codec.line(r).value);
      forall i | 0 <= i < |w.sent| ensures Taken(u, w.db.rows, w'.sent[i]) {
        assert forall j | 0 <= j < |w.sent[i]| :: w.sent[i][j].0 < n;
        TakenSnoc(u, w.db.rows, w.sent[i], line);
      }
    }
  }

  lemma TakenSnoc(u: Setup, rows: seq<Rec>, lines: seq<(int, string)>, line: (int, string))
    requires Taken(u, rows, lines) && IsRow(u, rows, line) && forall j | 0 <= j < |lines| :: lines[j].0 < line.0
    ensures Taken(u, rows, lines + [line])
  {
    hide IsRow;
    var all := lines + [line];
    forall j | 0 <= j < |all| ensures IsRow(u, rows, all[j]) {
      assert j < |lines| ==> all[j] == lines[j];
    }
  }

  /** A record written beside a state, in one transaction. */
  lemma AppendHonest<S>(c: Codec, db: Db<S>, state: S, mint: string, e: Entry, inserted: bool)
    requires HashBlind(c) && Linked(c, db)
    requires AppendTx(c, db.(state := state), mint, e, inserted).Some?
    requires state != db.state ==> !e.outcome.Failure?
    ensures var after := AppendTx(c, db.(state := state), mint, e, inserted).value;
      && Linked(c, after) && Honest(Commit(db, after))
      && after.state == state && after.rows[|db.rows|].body.outcome == OutcomeText(e.outcome)
  {
    var tx := db.(state := state);
    forall i | 0 <= i < |db.rows| ensures LinkedAt(c, tx, i) {
      assert LinkedAt(c, db, i);
    }
    AppendKeeps(c, tx, mint, e, inserted);
  }

  lemma RecordKeeps<S>(u: Setup, state: S, w: World<S>, e: Entry, f: Fate, errors: set<Fault>)
    requires HashBlind(u.codec) && Inv(u, state, w)
    ensures Inv(u, state, Record(u, w, e, f, errors).0)
  {
    hide AppendTx, Linked, Taken, Emit, Leads, HashBlind;
    var t := Append(u, w, e, f);
    if t.Some? {
      assert w.db.(state := w.db.state) == w.db;
      AppendHonest(u.codec, w.db, w.db.state, f.mint, e, f.recorded);
      CommitKeeps(u, state, w, t.value);
      CommitUnsent(u, state, w, t.value);
      EmitKeeps(u, state, Committed(w, t.value), f.takes);
    }
  }

  lemma TransactKeeps<S>(u: Setup, state: S, w: World<S>, now: int, req: Request, a: Attempt<S>, f: Fate)
    requires HashBlind(u.codec) && Inv(u, state, w) && Transact(u, w.db, now, req, a, f).Some?
    ensures var t := Transact(u, w.db, now, req, a, f).value;
      Inv(u, state, Emit(u, Committed(w, t), t.rows[|t.rows| - 1], f.takes))
  {
    hide AppendTx, Linked, Taken, Emit, Leads, HashBlind;
    var text := if a.err.Some? then Some(a.err.value.text) else None;
    var e := EntryOf(now, req, OutcomeOf(a.err), a.detail, text);
    var t := Transact(u, w.db, now, req, a, f).value;
    AppendHonest(u.codec, w.db, a.state, f.mint, e, f.inserted);
    CommitKeeps(u, state, w, t);
    CommitUnsent(u, state, w, t);
    EmitKeeps(u, state, Committed(w, t), f.takes);
  }

  lemma RunsIrrelevant<S>(u: Setup, state: S, w: World<S>, runs: nat)
    requires Inv(u, state, w)
    ensures Inv(u, state, w.(runs := runs))
  {
  }

  lemma ActKeeps<S>(u: Setup, state: S, w: World<S>, c: Call<S>)
    requires HashBlind(u.codec) && Inv(u, state, w)
    ensures Inv(u, state, Act(u, w, c.now, c.req, c.body, c.fate).0)
  {
    hide AppendTx, Inv, Emit, HashBlind, Transact, EntryOf, Record;
    if Blocked(u, w) {
      RecordKeeps(u, state, w, EntryOf(c.now, c.req, Failure, map[], Some(c.fate.why)), c.fate, {Refused});
    } else if c.fate.begun {
      var a := c.body(w.db.state);
      var w1 := w.(runs := w.runs + 1);
      RunsIrrelevant(u, state, w, w.runs + 1);
      if Transact(u, w.db, c.now, c.req, a, c.fate).Some? {
        TransactKeeps(u, state, w1, c.now, c.req, a, c.fate);
      } else if a.err.Some? {
        var (text, errors) := Cause(a.err.value, c.fate.why);
        RecordKeeps(u, state, w1, EntryOf(c.now, c.req, OutcomeOf(a.err), a.detail, Some(text)), c.fate, errors);
      }
    }
  }

  /** Over every run of calls made one after the other, whatever is refused, fails, or
      does not commit: the chain is dense and linked; each committed transaction holds
      exactly one record and no change beside a failure; each sink holds only lines of
      committed records, each once, in sequence order. */
  lemma {:induction false} RunKeeps<S>(u: Setup, state: S, calls: seq<Call<S>>)
    requires HashBlind(u.codec)
    ensures Inv(u, state, Run(u, Fresh(u, state), calls))
    decreases |calls|
  {
    if calls == [] {
    } else {
      RunKeeps(u, state, calls[..|calls| - 1]);
      ActKeeps(u, state, Run(u, Fresh(u, state), calls[..|calls| - 1]), calls[|calls| - 1]);
    }
  }

  // ---------------------------------------------------------------------
  // What a record says.

  /** r says who asked for what, from where and why, when, and how it went. */
  predicate Said(r: Rec, now: int, req: Request, outcome: string, detail: map<string, Json>) {
    && r.ts == now && r.body.v == 1
    && r.body.actor.id == req.actor.id && r.body.actor.how == req.actor.how && r.body.actor.session == req.actor.session
    && r.body.source.ip == req.source.ip && r.body.source.version == req.source.version
    && r.body.action == req.action && r.body.target == req.target
    && r.body.intentHash == req.intentHash && r.body.justification == req.justification
    && r.body.outcome == outcome && r.body.detail == detail
  }

  lemma AppendSays<S>(c: Codec, db: Db<S>, mint: string, inserted: bool, now: int, req: Request, outcome: Outcome,
      detail: map<string, Json>, err: Option<string>)
    requires AppendTx(c, db, mint, EntryOf(now, req, outcome, detail, err), inserted).Some?
    ensures var t := AppendTx(c, db, mint, EntryOf(now, req, outcome, detail, err), inserted).value;
      Said(t.rows[|t.rows| - 1], now, req, OutcomeText(outcome), if err.Some? then detail["error" := Str(err.value)] else detail)
  {
  }

  /** What the record of one call says, by how the call went: refused; done; failed, and
      rolled back; or in part done, and committed or not. */
  predicate SaysCall<S>(r: Rec, u: Setup, w: World<S>, c: Call<S>, errors: set<Fault>) {
    if Blocked(u, w) then Said(r, c.now, c.req, "failure", map["error" := Str(c.fate.why)])
    else
      var a := c.body(w.db.state);
      if a.err.None? then Said(r, c.now, c.req, "success", a.detail)
      else if !a.err.value.partial then
        Said(r, c.now, c.req, "failure", a.detail["error" := Str(a.err.value.text)])
      else if Store in errors then
        Said(r, c.now, c.req, "partial", a.detail["error" := Str(a.err.value.text + "\n" + c.fate.why)])
      else Said(r, c.now, c.req, "partial", a.detail["error" := Str(a.err.value.text)])
  }

  lemma CallSays<S>(u: Setup, w: World<S>, c: Call<S>)
    ensures var out := Act(u, w, c.now, c.req, c.body, c.fate).1;
      out.record.Some? ==> SaysCall(out.record.value, u, w, c, out.errors)
  {
    hide AppendTx, Emit, EntryOf, Said;
    var a := c.body(w.db.state);
    if Blocked(u, w) {
      if Append(u, w, EntryOf(c.now, c.req, Failure, map[], Some(c.fate.why)), c.fate).Some? {
        AppendSays(u.codec, w.db, c.fate.mint, c.fate.recorded, c.now, c.req, Failure, map[], Some(c.fate.why));
      }
    } else if c.fate.begun {
      if Transact(u, w.db, c.now, c.req, a, c.fate).Some? {
        var text := if a.err.Some? then Some(a.err.value.text) else None;
        AppendSays(u.codec, w.db.(state := a.state), c.fate.mint, c.fate.inserted, c.now, c.req, OutcomeOf(a.err), a.detail, text);
      } else if a.err.Some? {
        var (text, errors) := Cause(a.err.value, c.fate.why);
        if Append(u, w, EntryOf(c.now, c.req, OutcomeOf(a.err), a.detail, Some(text)), c.fate).Some? {
          AppendSays(u.codec, w.db, c.fate.mint, c.fate.recorded, c.now, c.req, OutcomeOf(a.err), a.detail, Some(text));
        }
      }
    }
  }

  /** What a call reports: refused; the transaction; the body's own failure, and the
      transaction's beside it where the body's effect reached outside; and that nothing
      was recorded where a record of its own was due and failed. */
  lemma CallFaults<S>(u: Setup, w: World<S>, c: Call<S>)
    ensures var out := Act(u, w, c.now, c.req, c.body, c.fate).1;
      var a := c.body(w.db.state);
      var own := Blocked(u, w) || (c.fate.begun && a.err.Some? && Transact(u, w.db, c.now, c.req, a, c.fate).None?);
      && (Unrecorded in out.errors <==> own && out.record.None?)
      && (Refused in out.errors <==> Blocked(u, w))
      && (Mutation in out.errors <==> !Blocked(u, w) && c.fate.begun && a.err.Some?)
      && (Store in out.errors <==>
            !Blocked(u, w) && (!c.fate.begun || (Transact(u, w.db, c.now, c.req, a, c.fate).None?
                                                 && (a.err.None? || a.err.value.partial))))
  {
    hide AppendTx, Emit, EntryOf;
  }

  // ---------------------------------------------------------------------
  // One call.

  /** Whatever a call answers, its record and its change go together: no record, and
      the database is as it was; a record, and it is the one row added; no error, and
      the change is there with a record that says "success"; a change, and the record
      says "success" or "partial"; a body that failed outright, and nothing changed.
      And a body runs exactly when the call is not blocked and its transaction begins;
      and the record says all of what was asked, and how it went. */
  lemma CallLaw<S>(u: Setup, state: S, w: World<S>, c: Call<S>)
    requires HashBlind(u.codec) && Inv(u, state, w)
    ensures var (w', out) := Act(u, w, c.now, c.req, c.body, c.fate);
      var a := c.body(w.db.state);
      && (out.record.None? ==> w'.db == w.db && out.errors != {})
      && (out.record.Some? ==> w'.db.rows == w.db.rows + [out.record.value])
      && (out.errors == {} ==> out.record.Some? && w'.db.state == a.state
                               && out.record.value.body.outcome == "success")
      && (w'.db.state != w.db.state ==>
            out.record.Some? && w'.runs == w.runs + 1 && w'.db.state == a.state
            && out.record.value.body.outcome == if a.err.None? then "success" else "partial")
      && (w'.runs > w.runs && a.err.Some? && out.record.Some? ==>
            out.record.value.body.outcome == if a.err.value.partial then "partial" else "failure")
      && w'.runs == (if Blocked(u, w) || !c.fate.begun then w.runs else w.runs + 1)
      && (w'.runs == w.runs ==> w'.db.state == w.db.state)
      && (w'.runs == w.runs && out.record.Some? ==> out.record.value.body.outcome == "failure")
      && (out.record.Some? ==> SaysCall(out.record.value, u, w, c, out.errors))
  {
    CallSays(u, w, c);
    hide Linked, Leads, Taken, HashBlind, EntryOf, AppendTx, Emit, SaysCall;
    var a := c.body(w.db.state);
    if Blocked(u, w) {
      RecordLaw(u, state, w, EntryOf(c.now, c.req, Failure, map[], Some(c.fate.why)), c.fate, {Refused});
    } else if c.fate.begun {
      var w1 := w.(runs := w.runs + 1);
      RunsIrrelevant(u, state, w, w.runs + 1);
      if Transact(u, w.db, c.now, c.req, a, c.fate).Some? {
        TransactLaw(u, state, w1, c.now, c.req, a, c.fate);
      } else if a.err.Some? {
        var (text, errors) := Cause(a.err.value, c.fate.why);
        RecordLaw(u, state, w1, EntryOf(c.now, c.req, OutcomeOf(a.err), a.detail, Some(text)), c.fate, errors);
      }
    }
  }

  lemma RecordLaw<S>(u: Setup, state: S, w: World<S>, e: Entry, f: Fate, errors: set<Fault>)
    requires HashBlind(u.codec) && Inv(u, state, w)
    ensures var (w', out) := Record(u, w, e, f, errors);
      && w'.runs == w.runs && w'.db.state == w.db.state && errors <= out.errors
      && (out.record.None? ==> w'.db == w.db && Unrecorded in out.errors)
      && (out.record.Some? ==> w'.db.rows == w.db.rows + [out.record.value] && out.errors == errors
                               && out.record.value.body.outcome == OutcomeText(e.outcome))
  {
    hide Linked, Leads, Taken, HashBlind, AppendTx;
    assert w.db.(state := w.db.state) == w.db;
    if Append(u, w, e, f).Some? {
      AppendHonest(u.codec, w.db, w.db.state, f.mint, e, f.recorded);
      var t := Append(u, w, e, f).value;
      assert t.rows == t.rows[..|w.db.rows|] + [t.rows[|w.db.rows|]];
    }
  }

  lemma TransactLaw<S>(u: Setup, state: S, w: World<S>, now: int, req: Request, a: Attempt<S>, f: Fate)
    requires HashBlind(u.codec) && Inv(u, state, w) && Transact(u, w.db, now, req, a, f).Some?
    ensures var t := Transact(u, w.db, now, req, a, f).value;
      && t.state == a.state && (a.err.Some? ==> a.err.value.partial)
      && t.rows == w.db.rows + [t.rows[|t.rows| - 1]]
      && t.rows[|t.rows| - 1].body.outcome == OutcomeText(OutcomeOf(a.err))
  {
    hide Linked, Leads, Taken, HashBlind, AppendTx;
    var text := if a.err.Some? then Some(a.err.value.text) else None;
    var e := EntryOf(now, req, OutcomeOf(a.err), a.detail, text);
    AppendHonest(u.codec, w.db, a.state, f.mint, e, f.inserted);
    var t := Transact(u, w.db, now, req, a, f).value;
    assert t.rows == t.rows[..|w.db.rows|] + [t.rows[|w.db.rows|]];
  }

  // ---------------------------------------------------------------------
  // The posture.

  /** Every name's last sink took the record. */
  predicate AllRecovered(names: seq<string>, takes: nat -> bool) {
    forall n | n in names :: takes(Last(names, n))
  }

  /** A refused call is also the probe. The next call is let through exactly when the
      refusal was recorded and could be printed, and every sink name's last sink took
      it: recovery of the sinks that were failing is not enough if another one fails
      on the refusal itself. */
  lemma Recovery<S>(u: Setup, state: S, w: World<S>, c: Call<S>)
    requires HashBlind(u.codec) && Inv(u, state, w) && Blocked(u, w)
    ensures var (w', out) := Act(u, w, c.now, c.req, c.body, c.fate);
      !Blocked(u, w') <==>
        out.record.Some? && u.codec.line(out.record.value).Some? && AllRecovered(u.sinks, c.fate.takes)
  {
    hide Leads, Taken, HashBlind, EntryOf;
    var e := EntryOf(c.now, c.req, Failure, map[], Some(c.fate.why));
    var t := Append(u, w, e, c.fate);
    if t.Some? {
      RefusalNumbered(u, w, e, c.fate);
      var after := Failing(u.sinks, c.fate.takes, w.failing);
      if AllRecovered(u.sinks, c.fate.takes) {
        assert after == {};
      } else {
        var n :| n in u.sinks && !c.fate.takes(Last(u.sinks, n));
        assert n in after;
      }
    }
  }

  lemma RefusalNumbered<S>(u: Setup, w: World<S>, e: Entry, f: Fate)
    requires HashBlind(u.codec) && Linked(u.codec, w.db) && Append(u, w, e, f).Some?
    ensures var t := Append(u, w, e, f).value; t.rows[|t.rows| - 1].seqNo == |t.rows|
  {
    AppendKeeps(u.codec, w.db, f.mint, e, f.recorded);
    var t := Append(u, w, e, f).value;
    assert LinkedAt(u.codec, t, |t.rows| - 1);
  }

  // ---------------------------------------------------------------------
  // Printing.

  /** Whatever can be hashed can be printed. */
  ghost predicate Printed(c: Codec) {
    forall r :: c.hasher(r) == Some(r.hash) ==> c.line(r).Some?
  }
}
