/** Calls that overlap. A call looks at the posture, commits, records a failure, hands
    its record to one sink after the other and notes how each took it in separate steps,
    and the steps of different calls come in any order: the store serializes the
    transactions, the lock the notes, and nothing else is serialized. */
module AuditSteps {
  import opened Prelude
  import opened JsonValue
  import opened AuditRecord
  import opened AuditChain
  import opened AuditLog
  import opened AuditRuns

  /** Where a call stands: refused and about to record it, let through, rolled back and
      about to record that, with its record committed and done with the first k sinks,
      or answered. told: the sink after those has answered, and how it went is still to
      be noted. */
  datatype Stage =
    | Refusing | Running
    | Recording(e: Entry, errors: set<Fault>)
    | Emitting(r: Rec, k: nat, told: bool, errors: set<Fault>)
    | Done(out: Answer)

  datatype Flight<!S> = Flight(call: Call<S>, stage: Stage)

  /** notes lists what was noted of the sinks: which one, and whether it took a record. */
  datatype Plant<!S> = Plant(w: World<S>, flights: seq<Flight<S>>, notes: seq<(nat, bool)>)

  datatype Event<!S> = Enter(call: Call<S>) | Move(i: nat)

  // ---------------------------------------------------------------------
  // One step of one call.

  /** One sink is offered a record. */
  function Offer<S>(w: World<S>, line: (int, string), k: nat, took: bool): World<S> {
    if took && k < |w.sent| then w.(sent := w.sent[k := w.sent[k] + [line]]) else w
  }

  /** How it went is noted, under the lock the posture is read under. */
  function Note<S>(w: World<S>, name: string, took: bool): World<S> {
    w.(failing := if took then w.failing - {name} else w.failing + {name})
  }

  predicate Offers(u: Setup, r: Rec, k: nat) {
    r.seqNo != 0 && u.codec.line(r).Some? && k < |u.sinks|
  }

  /** A committed record starts its way to the sinks. */
  function Sets<S>(w: World<S>, after: Db<S>, errors: set<Fault>): (World<S>, Stage)
    requires after.rows != []
  {
    (Committed(w, after), Emitting(after.rows[|after.rows| - 1], 0, false, errors))
  }

  function Records<S>(u: Setup, w: World<S>, e: Entry, f: Fate, errors: set<Fault>): (World<S>, Stage) {
    var t := Append(u, w, e, f);
    if t.None? then (w, Done(Answer(None, errors + {Unrecorded}))) else Sets(w, t.value, errors)
  }

  function Attempts<S>(u: Setup, w: World<S>, c: Call<S>): (World<S>, Stage) {
    if !c.fate.begun then (w, Done(Answer(None, {Store})))
    else
      var a := c.body(w.db.state);
      var t := Transact(u, w.db, c.now, c.req, a, c.fate);
      var w := w.(runs := w.runs + 1);
      if t.Some? then Sets(w, t.value, if a.err.Some? then {Mutation} else {})
      else if a.err.None? then (w, Done(Answer(None, {Store})))
      else
        var (text, errors) := Cause(a.err.value, c.fate.why);
        (w, Recording(EntryOf(c.now, c.req, OutcomeOf(a.err), a.detail, Some(text)), errors))
  }

  function Advance<S>(u: Setup, w: World<S>, fl: Flight<S>): (World<S>, Stage) {
    var c := fl.call;
    match fl.stage
    case Refusing => Records(u, w, EntryOf(c.now, c.req, Failure, map[], Some(c.fate.why)), c.fate, {Refused})
    case Running => Attempts(u, w, c)
    case Recording(e, errors) => Records(u, w, e, c.fate, errors)
    case Emitting(r, k, told, errors) =>
      if !Offers(u, r, k) then (w, Done(Answer(Some(r), errors)))
      else if told then (Note(w, u.sinks[k], c.fate.takes(k)), Emitting(r, k + 1, false, errors))
      else (Offer(w, (r.seqNo, u.codec.line(r).value), k, c.fate.takes(k)), Emitting(r, k, true, errors))
    case Done(_) => (w, fl.stage)
  }

  function Entered<S>(u: Setup, w: World<S>): Stage {
    if Blocked(u, w) then Refusing else Running
  }

  /** What a step notes, and of which sink. */
  function Noted<S>(u: Setup, fl: Flight<S>): seq<(nat, bool)> {
    match fl.stage
    case Emitting(r, k, told, _) => if told && Offers(u, r, k) then [(k, fl.call.fate.takes(k))] else []
    case _ => []
  }

  function Do<S>(u: Setup, p: Plant<S>, e: Event<S>): Plant<S> {
    match e
    case Enter(c) => p.(flights := p.flights + [Flight(c, Entered(u, p.w))])
    case Move(i) =>
      if i >= |p.flights| then p
      else
        var fl := p.flights[i];
        var (w, stage) := Advance(u, p.w, fl);
        Plant(w, p.flights[i := fl.(stage := stage)], p.notes + Noted(u, fl))
  }

  function Idle<S>(u: Setup, state: S): Plant<S> {
    Plant(Fresh(u, state), [], [])
  }

  function Overlap<S>(u: Setup, state: S, es: seq<Event<S>>): Plant<S>
    decreases |es|
  {
    if es == [] then Idle(u, state) else Do(u, Overlap(u, state, es[..|es| - 1]), es[|es| - 1])
  }

  // ---------------------------------------------------------------------
  // Alone, the steps are the call.

  function Rank(s: Stage): nat {
    match s
    case Refusing => 3
    case Running => 3
    case Recording(_, _) => 2
    case Emitting(_, _, _, _) => 1
    case Done(_) => 0
  }

  function ToGo(u: Setup, s: Stage): nat {
    match s
    case Emitting(_, k, told, _) => if k < |u.sinks| then 2 * (|u.sinks| - k) - (if told then 1 else 0) else 0
    case _ => 0
  }

  lemma GoesOn<S>(u: Setup, w: World<S>, fl: Flight<S>)
    requires !fl.stage.Done?
    ensures var s := Advance(u, w, fl).1;
      Rank(s) < Rank(fl.stage) || (Rank(s) == Rank(fl.stage) && ToGo(u, s) < ToGo(u, fl.stage))
  {
    hide Append, Transact, EntryOf;
  }

  /** A call whose steps nothing comes between. */
  function Alone<S>(u: Setup, w: World<S>, fl: Flight<S>): (World<S>, Answer)
    decreases Rank(fl.stage), ToGo(u, fl.stage)
  {
    if fl.stage.Done? then (w, fl.stage.out)
    else
      GoesOn(u, w, fl);
      var (v, stage) := Advance(u, w, fl);
      Alone(u, v, fl.(stage := stage))
  }

  lemma AloneStep<S>(u: Setup, w: World<S>, fl: Flight<S>)
    requires !fl.stage.Done?
    ensures var (v, stage) := Advance(u, w, fl); Alone(u, w, fl) == Alone(u, v, fl.(stage := stage))
  {
    hide Advance;
  }

  /** w after the first k sinks were offered r. */
  function Offered<S>(u: Setup, w: World<S>, r: Rec, text: string, k: nat, takes: nat -> bool): World<S>
    requires k <= |u.sinks|
  {
    w.(failing := Failing(u.sinks[..k], takes, w.failing), sent := Sent(w.sent, k, takes, (r.seqNo, text)))
  }

  lemma OfferedOn<S>(u: Setup, w: World<S>, r: Rec, text: string, k: nat, takes: nat -> bool)
    requires k < |u.sinks| && |w.sent| == |u.sinks|
    ensures Note(Offer(Offered(u, w, r, text, k, takes), (r.seqNo, text), k, takes(k)), u.sinks[k], takes(k)) ==
      Offered(u, w, r, text, k + 1, takes)
  {
    hide Failing;
    FailingSnoc(u.sinks, k, takes, w.failing);
    var line := (r.seqNo, text);
    var before := Sent(w.sent, k, takes, line);
    assert Sent(w.sent, k + 1, takes, line) ==
      if takes(k) then before[k := before[k] + [line]] else before;
  }

  lemma {:induction false} EmitAlone<S>(u: Setup, w: World<S>, c: Call<S>, r: Rec, k: nat, errors: set<Fault>)
    requires Offers(u, r, k) || k == |u.sinks|
    requires r.seqNo != 0 && u.codec.line(r).Some? && |w.sent| == |u.sinks|
    ensures Alone(u, Offered(u, w, r, u.codec.line(r).value, k, c.fate.takes), Flight(c, Emitting(r, k, false, errors))) ==
      (Offered(u, w, r, u.codec.line(r).value, |u.sinks|, c.fate.takes), Answer(Some(r), errors))
    decreases |u.sinks| - k
  {
    hide Offered, Alone;
    var text := u.codec.line(r).value;
    var v := Offered(u, w, r, text, k, c.fate.takes);
    AloneStep(u, v, Flight(c, Emitting(r, k, false, errors)));
    if k == |u.sinks| {
      AloneDone(u, v, Flight(c, Done(Answer(Some(r), errors))));
    } else {
      AloneStep(u, Offer(v, (r.seqNo, text), k, c.fate.takes(k)), Flight(c, Emitting(r, k, true, errors)));
      OfferedOn(u, w, r, text, k, c.fate.takes);
      EmitAlone(u, w, c, r, k + 1, errors);
    }
  }

  lemma AloneDone<S>(u: Setup, w: World<S>, fl: Flight<S>)
    requires fl.stage.Done?
    ensures Alone(u, w, fl) == (w, fl.stage.out)
  {
  }

  lemma NoneOffered<S>(u: Setup, w: World<S>, r: Rec, text: string, takes: nat -> bool)
    ensures Offered(u, w, r, text, 0, takes) == w
  {
    assert u.sinks[..0] == [];
    assert Failing([], takes, w.failing) == w.failing;
    assert Sent(w.sent, 0, takes, (r.seqNo, text)) == w.sent;
  }

  lemma SetsAlone<S>(u: Setup, w: World<S>, c: Call<S>, after: Db<S>, errors: set<Fault>)
    requires after.rows != [] && |w.sent| == |u.sinks|
    ensures var (v, stage) := Sets(w, after, errors);
      var r := after.rows[|after.rows| - 1];
      Alone(u, v, Flight(c, stage)) == (Emit(u, Committed(w, after), r, c.fate.takes), Answer(Some(r), errors))
  {
    hide Alone, Failing, Sent;
    var r := after.rows[|after.rows| - 1];
    var v := Committed(w, after);
    if Offers(u, r, 0) || (r.seqNo != 0 && u.codec.line(r).Some?) {
      NoneOffered(u, v, r, u.codec.line(r).value, c.fate.takes);
      EmitAlone(u, v, c, r, 0, errors);
      assert u.sinks[..|u.sinks|] == u.sinks;
    } else {
      AloneStep(u, v, Flight(c, Emitting(r, 0, false, errors)));
      AloneDone(u, v, Flight(c, Done(Answer(Some(r), errors))));
    }
  }

  lemma RecordsAlone<S>(u: Setup, w: World<S>, c: Call<S>, e: Entry, errors: set<Fault>)
    requires |w.sent| == |u.sinks|
    ensures var (v, stage) := Records(u, w, e, c.fate, errors);
      Alone(u, v, Flight(c, stage)) == Record(u, w, e, c.fate, errors)
  {
    hide Alone, Emit, AppendTx;
    var t := Append(u, w, e, c.fate);
    if t.None? {
      AloneDone(u, w, Flight(c, Done(Answer(None, errors + {Unrecorded}))));
    } else {
      SetsAlone(u, w, c, t.value, errors);
    }
  }

  /** A call whose steps come one right after the other is the call as it performs
      alone. */
  lemma AloneIsAct<S>(u: Setup, w: World<S>, c: Call<S>)
    requires |w.sent| == |u.sinks|
    ensures Alone(u, w, Flight(c, Entered(u, w))) == Act(u, w, c.now, c.req, c.body, c.fate)
  {
    hide Alone, Emit, AppendTx, EntryOf, Record, Records, Sets;
    AloneStep(u, w, Flight(c, Entered(u, w)));
    if Blocked(u, w) {
      RecordsAlone(u, w, c, EntryOf(c.now, c.req, Failure, map[], Some(c.fate.why)), {Refused});
    } else if !c.fate.begun {
      AloneDone(u, w, Flight(c, Done(Answer(None, {Store}))));
    } else {
      var a := c.body(w.db.state);
      var t := Transact(u, w.db, c.now, c.req, a, c.fate);
      var v := w.(runs := w.runs + 1);
      if t.Some? {
        SetsAlone(u, v, c, t.value, if a.err.Some? then {Mutation} else {});
      } else if a.err.None? {
        AloneDone(u, v, Flight(c, Done(Answer(None, {Store}))));
      } else {
        var (text, errors) := Cause(a.err.value, c.fate.why);
        var e := EntryOf(c.now, c.req, OutcomeOf(a.err), a.detail, Some(text));
        AloneStep(u, v, Flight(c, Recording(e, errors)));
        RecordsAlone(u, v, c, e, errors);
      }
    }
  }
}
