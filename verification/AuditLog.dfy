/** The seam every mutation passes through, and delivery to the sinks after it.

    The functions say what one call does to the database, the sinks and the failing
    set; the class does it step by step, transaction and loop included. */
module AuditLog {
  import opened Prelude
  import opened JsonValue
  import opened AuditRecord
  import opened AuditChain

  datatype Request = Request(
    actor: Actor, source: Source, action: string, target: Option<Target>,
    intentHash: string, justification: string)

  /** How a mutation failed; partial when its effect reached outside the transaction. */
  datatype Fail = Fail(partial: bool, text: string)

  /** What a mutation body did to the state it was given, and what it reported. */
  datatype Attempt<S> = Attempt(state: S, detail: map<string, Json>, err: Option<Fail>)

  datatype Fault = Refused | Mutation | Store | Unrecorded

  datatype Answer = Answer(record: Option<Rec>, errors: set<Fault>)

  /** What the outside decides during one call: the identifier minted, whether the
      transaction begins, its row is written and it commits, whether a transaction
      holding only a record succeeds, and which sinks take the record. */
  datatype Fate = Fate(
    mint: string, begun: bool, inserted: bool, committed: bool, recorded: bool,
    why: string, takes: nat -> bool)

  datatype Setup = Setup(codec: Codec, sinks: seq<string>, block: bool)

  datatype Commit<S> = Commit(before: Db<S>, after: Db<S>)

  /** sent holds, for each sink, the records it took; runs counts the mutation bodies
      that were called; commits lists the transactions that committed. */
  datatype World<S> = World(
    db: Db<S>, failing: set<string>, sent: seq<seq<(int, string)>>,
    runs: nat, commits: seq<Commit<S>>)

  function OutcomeOf(err: Option<Fail>): Outcome {
    if err.None? then Success else if err.value.partial then Partial else Failure
  }

  function EntryOf(now: int, req: Request, outcome: Outcome, detail: map<string, Json>, err: Option<string>): (e: Entry)
    ensures e.outcome == outcome
  {
    Entry(now, req.actor, req.source, req.action, req.target, req.intentHash, req.justification, outcome,
          if err.Some? then detail["error" := Str(err.value)] else detail)
  }

  predicate Blocked<S>(u: Setup, w: World<S>) {
    u.block && w.failing != {}
  }

  // ---------------------------------------------------------------------
  // Delivery.

  /** The last sink of a name has the last word on whether the name is failing. */
  function Last(names: seq<string>, n: string): (k: nat)
    requires n in names
    ensures k < |names| && names[k] == n && forall j | k < j < |names| :: names[j] != n
  {
    if names[|names| - 1] == n then |names| - 1 else Last(names[..|names| - 1], n)
  }

  function Failing(names: seq<string>, takes: nat -> bool, failing: set<string>): set<string> {
    set n | n in failing + (set x | x in names) && (n in names ==> !takes(Last(names, n)))
  }

  function Sent(sent: seq<seq<(int, string)>>, k: nat, takes: nat -> bool, line: (int, string)): seq<seq<(int, string)>> {
    seq(|sent|, i requires 0 <= i < |sent| => if i < k && takes(i) then sent[i] + [line] else sent[i])
  }

  function Emit<S>(u: Setup, w: World<S>, r: Rec, takes: nat -> bool): (e: World<S>)
    ensures e.db == w.db && e.runs == w.runs && e.commits == w.commits
  {
    if r.seqNo == 0 || u.codec.line(r).None? then w
    else w.(failing := Failing(u.sinks, takes, w.failing),
            sent := Sent(w.sent, |u.sinks|, takes, (r.seqNo, u.codec.line(r).value)))
  }

  // ---------------------------------------------------------------------
  // One call.

  function Committed<S>(w: World<S>, after: Db<S>): World<S> {
    w.(db := after, commits := w.commits + [Commit(w.db, after)])
  }

  /** A record in a transaction of its own. */
  function Append<S>(u: Setup, w: World<S>, e: Entry, f: Fate): Option<Db<S>> {
    AppendTx(u.codec, w.db, f.mint, e, f.recorded)
  }

  /** What a transaction holding a mutation and its record leaves, if it commits. */
  function Transact<S>(u: Setup, db: Db<S>, now: int, req: Request, a: Attempt<S>, f: Fate): Option<Db<S>> {
    if a.err.Some? && !a.err.value.partial then None
    else
      var text := if a.err.Some? then Some(a.err.value.text) else None;
      var t := AppendTx(u.codec, db.(state := a.state), f.mint,
                        EntryOf(now, req, OutcomeOf(a.err), a.detail, text), f.inserted);
      if f.committed then t else None
  }

  /** Commits a record of its own and delivers it. */
  function Record<S>(u: Setup, w: World<S>, e: Entry, f: Fate, errors: set<Fault>): (World<S>, Answer) {
    var t := Append(u, w, e, f);
    if t.None? then (w, Answer(None, errors + {Unrecorded}))
    else
      var r := t.value.rows[|t.value.rows| - 1];
      (Emit(u, Committed(w, t.value), r, f.takes), Answer(Some(r), errors))
  }

  function Cause(err: Fail, why: string): (string, set<Fault>) {
    if err.partial then (err.text + "\n" + why, {Mutation, Store}) else (err.text, {Mutation})
  }

  function Act<S>(u: Setup, w: World<S>, now: int, req: Request, body: S -> Attempt<S>, f: Fate): (World<S>, Answer) {
    if Blocked(u, w) then
      Record(u, w, EntryOf(now, req, Failure, map[], Some(f.why)), f, {Refused})
    else if !f.begun then (w, Answer(None, {Store}))
    else
      var a := body(w.db.state);
      var t := Transact(u, w.db, now, req, a, f);
      var w := w.(runs := w.runs + 1);
      if t.Some? then
        var r := t.value.rows[|t.value.rows| - 1];
        (Emit(u, Committed(w, t.value), r, f.takes), Answer(Some(r), if a.err.Some? then {Mutation} else {}))
      else if a.err.None? then (w, Answer(None, {Store}))
      else
        var (text, errors) := Cause(a.err.value, f.why);
        Record(u, w, EntryOf(now, req, OutcomeOf(a.err), a.detail, Some(text)), f, errors)
  }

  // ---------------------------------------------------------------------
  // The loop over the sinks, one at a time.

  lemma LastSnoc(names: seq<string>, i: nat, n: string)
    requires i < |names|
    ensures n in names[..i + 1] <==> n in names[..i] || n == names[i]
    ensures n in names[..i + 1] ==>
      Last(names[..i + 1], n) == if n == names[i] then i else Last(names[..i], n)
  {
    assert names[..i + 1][..i] == names[..i];
  }

  lemma FailingSnoc(names: seq<string>, i: nat, takes: nat -> bool, failing: set<string>)
    requires i < |names|
    ensures Failing(names[..i + 1], takes, failing) ==
      if takes(i) then Failing(names[..i], takes, failing) - {names[i]}
      else Failing(names[..i], takes, failing) + {names[i]}
  {
    forall n ensures n in Failing(names[..i + 1], takes, failing) <==>
        if n == names[i] then !takes(i) else n in Failing(names[..i], takes, failing) {
      LastSnoc(names, i, n);
    }
  }

  class Log<S> {
    const codec: Codec
    const sinks: seq<string>
    const block: bool
    var db: Db<S>
    var failing: set<string>
    var sent: seq<seq<(int, string)>>
    ghost var runs: nat
    ghost var commits: seq<Commit<S>>

    ghost function Setting(): Setup {
      Setup(codec, sinks, block)
    }

    ghost function View(): World<S>
      reads this
    {
      World(db, failing, sent, runs, commits)
    }

    ghost predicate Valid()
      reads this
    {
      |sent| == |sinks|
    }

    constructor (state: S, codec: Codec, sinks: seq<string>, block: bool)
      ensures Valid() && Setting() == Setup(codec, sinks, block)
      ensures View() == World(Db(state, [], None), {}, seq(|sinks|, i => []), 0, [])
    {
      this.codec, this.sinks, this.block := codec, sinks, block;
      db, failing, sent := Db(state, [], None), {}, seq(|sinks|, i => []);
      runs, commits := 0, [];
    }

    /** Delivers a committed record to every sink, remembering which names fail. */
    method EmitAll(r: Rec, takes: nat -> bool)
      requires Valid()
      modifies `failing, `sent
      ensures Valid() && View() == Emit(Setting(), old(View()), r, takes)
    {
      if r.seqNo == 0 {
        return;
      }
      var line := codec.line(r);
      if line.None? {
        return;
      }
      var i := 0;
      while i < |sinks|
        invariant 0 <= i <= |sinks| && |sent| == |sinks|
        invariant failing == Failing(sinks[..i], takes, old(failing))
        invariant sent == Sent(old(sent), i, takes, (r.seqNo, line.value))
      {
        FailingSnoc(sinks, i, takes, old(failing));
        if takes(i) {
          failing := failing - {sinks[i]};
          sent := sent[i := sent[i] + [(r.seqNo, line.value)]];
        } else {
          failing := failing + {sinks[i]};
        }
        i := i + 1;
      }
      assert sinks[..i] == sinks;
    }

    /** Commits a transaction. */
    method CommitTx(after: Db<S>)
      modifies `db, `commits
      ensures View() == Committed(old(View()), after)
    {
      commits := commits + [Commit(db, after)];
      db := after;
    }

    /** One record in its own transaction, delivered once it is committed. */
    method AppendAndEmit(e: Entry, f: Fate, errors: set<Fault>) returns (out: Answer)
      requires Valid()
      modifies this
      ensures Valid()
      ensures (View(), out) == Record(Setting(), old(View()), e, f, errors)
    {
      var t := AppendTx(codec, db, f.mint, e, f.recorded);
      if t.None? {
        return Answer(None, errors + {Unrecorded});
      }
      CommitTx(t.value);
      var r := db.rows[|db.rows| - 1];
      EmitAll(r, f.takes);
      return Answer(Some(r), errors);
    }

    /** Performs one audited mutation. */
    method Perform(now: int, req: Request, body: S -> Attempt<S>, f: Fate) returns (out: Answer)
      requires Valid()
      modifies this
      ensures Valid()
      ensures (View(), out) == Act(Setting(), old(View()), now, req, body, f)
    {
      hide AppendTx, EntryOf, Emit, Record, Failing, Sent;
      if block && failing != {} {
        out := AppendAndEmit(EntryOf(now, req, Failure, map[], Some(f.why)), f, {Refused});
        return;
      }
      if !f.begun {
        return Answer(None, {Store});
      }
      var a := body(db.state);
      runs := runs + 1;
      var t: Option<Db<S>> := None;
      if a.err.None? || a.err.value.partial {
        var tx := db.(state := a.state);
        var text := if a.err.Some? then Some(a.err.value.text) else None;
        t := AppendTx(codec, tx, f.mint, EntryOf(now, req, OutcomeOf(a.err), a.detail, text), f.inserted);
      }
      if t.Some? && f.committed {
        CommitTx(t.value);
        var r := db.rows[|db.rows| - 1];
        EmitAll(r, f.takes);
        return Answer(Some(r), if a.err.Some? then {Mutation} else {});
      }
      if a.err.None? {
        return Answer(None, {Store});
      }
      var cause := a.err.value.text;
      var errors := {Mutation};
      if a.err.value.partial {
        cause, errors := cause + "\n" + f.why, {Mutation, Store};
      }
      out := AppendAndEmit(EntryOf(now, req, OutcomeOf(a.err), a.detail, Some(cause)), f, errors);
    }
  }
}
