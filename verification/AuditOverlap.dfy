/** What every interleaving of overlapping calls keeps, and what it leaves with a sink that
    takes everything. */
module AuditOverlap {
  import opened Prelude
  import opened JsonValue
  import opened AuditRecord
  import opened ChainVerify
  import opened ChainExact
  import opened ChainFragments
  import opened AuditChain
  import opened AuditLog
  import opened AuditRuns
  import opened AuditSteps

  // ---------------------------------------------------------------------
  // The invariant.

  predicate Holds(lines: seq<(int, string)>, n: int) {
    exists j | 0 <= j < |lines| :: lines[j].0 == n
  }

  /** Only committed records, each once. */
  predicate OnlyRows(u: Setup, rows: seq<Rec>, lines: seq<(int, string)>) {
    && (forall j | 0 <= j < |lines| :: IsRow(u, rows, lines[j]))
    && (forall i, j | 0 <= i < j < |lines| :: lines[i].0 != lines[j].0)
  }

  /** How many sinks a record has been offered to. */
  function Reached(s: Stage): nat
    requires s.Emitting?
  {
    if s.told then s.k + 1 else s.k
  }

  /** The record a call is handing out is in the table, and no sink still ahead of it
      has it. */
  predicate Carries<S>(w: World<S>, s: Stage) {
    s.Emitting? ==>
      && 1 <= s.r.seqNo <= |w.db.rows| && w.db.rows[s.r.seqNo - 1] == s.r
      && forall i | Reached(s) <= i < |w.sent| :: !Holds(w.sent[i], s.r.seqNo)
  }

  /** No two calls hand out one record. */
  predicate Apart(a: Stage, b: Stage) {
    a.Emitting? && b.Emitting? ==> a.r.seqNo != b.r.seqNo
  }

  ghost predicate Kept<S>(u: Setup, state: S, w: World<S>) {
    && Linked(u.codec, w.db)
    && Leads(Db(state, [], None), w.commits, w.db) && |w.commits| == |w.db.rows|
    && |w.sent| == |u.sinks| && (forall i | 0 <= i < |w.sent| :: OnlyRows(u, w.db.rows, w.sent[i]))
  }

  ghost predicate Inv<S>(u: Setup, state: S, p: Plant<S>) {
    && Kept(u, state, p.w)
    && (forall i | 0 <= i < |p.flights| :: Carries(p.w, p.flights[i].stage))
    && (forall i, j | 0 <= i < j < |p.flights| :: Apart(p.flights[i].stage, p.flights[j].stage))
  }

  // ---------------------------------------------------------------------
  // One transaction more.

  lemma RowStays(u: Setup, rows: seq<Rec>, more: seq<Rec>, line: (int, string))
    requires IsRow(u, rows, line) && |rows| <= |more| && more[..|rows|] == rows
    ensures IsRow(u, more, line)
  {
    assert more[..|rows|][line.0 - 1] == more[line.0 - 1];
  }

  lemma RowsStay(u: Setup, rows: seq<Rec>, more: seq<Rec>, lines: seq<(int, string)>)
    requires OnlyRows(u, rows, lines) && |rows| <= |more| && more[..|rows|] == rows
    ensures OnlyRows(u, more, lines) && forall n | n > |rows| :: !Holds(lines, n)
  {
    hide IsRow;
    forall j | 0 <= j < |lines| ensures IsRow(u, more, lines[j]) && lines[j].0 <= |rows| {
      RowStays(u, rows, more, lines[j]);
      RowBound(u, rows, lines[j]);
    }
  }

  lemma RowBound(u: Setup, rows: seq<Rec>, line: (int, string))
    requires IsRow(u, rows, line)
    ensures 1 <= line.0 <= |rows| && u.codec.line(rows[line.0 - 1]) == Some(line.1)
  {
  }

  lemma CommitKept<S>(u: Setup, state: S, w: World<S>, after: Db<S>)
    requires Kept(u, state, w) && Linked(u.codec, after) && Honest(Commit(w.db, after))
    ensures Kept(u, state, Committed(w, after))
    ensures forall i, n | 0 <= i < |w.sent| && n > |w.db.rows| :: !Holds(w.sent[i], n)
  {
    hide Linked, OnlyRows, Holds;
    forall i | 0 <= i < |w.sent|
      ensures OnlyRows(u, after.rows, w.sent[i]) && forall n | n > |w.db.rows| :: !Holds(w.sent[i], n)
    {
      RowsStay(u, w.db.rows, after.rows, w.sent[i]);
    }
  }

  lemma CommitCarries<S>(w: World<S>, after: Db<S>, s: Stage)
    requires Carries(w, s) && Honest(Commit(w.db, after))
    ensures Carries(Committed(w, after), s) && (s.Emitting? ==> s.r.seqNo <= |w.db.rows|)
  {
    hide Holds;
    if s.Emitting? {
      assert after.rows[..|w.db.rows|][s.r.seqNo - 1] == after.rows[s.r.seqNo - 1];
    }
  }

  /** A call commits and starts handing out its record. */
  lemma SetsKeeps<S>(u: Setup, state: S, p: Plant<S>, i: nat, after: Db<S>, errors: set<Fault>)
    requires Inv(u, state, p) && i < |p.flights| && Linked(u.codec, after) && Honest(Commit(p.w.db, after))
    requires after.rows != []
    ensures var (w, stage) := Sets(p.w, after, errors);
      Inv(u, state, Plant(w, p.flights[i := p.flights[i].(stage := stage)], p.notes))
  {
    hide Kept, Carries, Leads, Holds;
    var (w, stage) := Sets(p.w, after, errors);
    assert |after.rows| == |p.w.db.rows| + 1;
    assert LinkedAt(u.codec, after, |p.w.db.rows|);
    CommitKept(u, state, p.w, after);
    NewCarries(p.w, after, stage);
    var fl := p.flights[i := p.flights[i].(stage := stage)];
    forall j | 0 <= j < |fl| ensures Carries(w, fl[j].stage) && (j != i ==> Apart(fl[j].stage, stage)) {
      if j != i {
        CommitCarries(p.w, after, fl[j].stage);
      }
    }
  }

  lemma NewCarries<S>(w: World<S>, after: Db<S>, s: Stage)
    requires Honest(Commit(w.db, after)) && s.Emitting? && s.k == 0 && !s.told && s.r == after.rows[|w.db.rows|]
    requires s.r.seqNo == |w.db.rows| + 1
    requires forall i, n | 0 <= i < |w.sent| && n > |w.db.rows| :: !Holds(w.sent[i], n)
    ensures Carries(Committed(w, after), s)
  {
    hide Holds;
  }

  // ---------------------------------------------------------------------
  // One offer more.

  lemma HoldsSnoc(lines: seq<(int, string)>, line: (int, string), n: int)
    ensures Holds(lines + [line], n) <==> Holds(lines, n) || line.0 == n
  {
    var all := lines + [line];
    assert all[|lines|] == line;
    if Holds(lines, n) {
      var j :| 0 <= j < |lines| && lines[j].0 == n;
      assert all[j].0 == n;
    }
  }

  lemma RowsSnoc(u: Setup, rows: seq<Rec>, lines: seq<(int, string)>, line: (int, string))
    requires OnlyRows(u, rows, lines) && IsRow(u, rows, line) && !Holds(lines, line.0)
    ensures OnlyRows(u, rows, lines + [line])
  {
    hide IsRow;
  }

  lemma OfferKept<S>(u: Setup, state: S, w: World<S>, r: Rec, k: nat, took: bool)
    requires Kept(u, state, w) && Offers(u, r, k)
    requires 1 <= r.seqNo <= |w.db.rows| && w.db.rows[r.seqNo - 1] == r && !Holds(w.sent[k], r.seqNo)
    ensures Kept(u, state, Offer(w, (r.seqNo, u.codec.line(r).value), k, took))
  {
    hide Linked, Leads, Holds, OnlyRows;
    var line := (r.seqNo, u.codec.line(r).value);
    assert IsRow(u, w.db.rows, line);
    RowsSnoc(u, w.db.rows, w.sent[k], line);
  }

  lemma OfferCarries<S>(w: World<S>, line: (int, string), k: nat, took: bool, s: Stage)
    requires k < |w.sent| && Carries(w, s)
    requires s.Emitting? ==> s.r.seqNo != line.0 || Reached(s) > k
    ensures Carries(Offer(w, line, k, took), s)
  {
    hide Holds;
    HoldsSnoc(w.sent[k], line, if s.Emitting? then s.r.seqNo else 0);
  }

  lemma OfferKeeps<S>(u: Setup, state: S, p: Plant<S>, i: nat, notes: seq<(nat, bool)>)
    requires Inv(u, state, p) && i < |p.flights| && p.flights[i].stage.Emitting? && !p.flights[i].stage.told
    requires Offers(u, p.flights[i].stage.r, p.flights[i].stage.k)
    ensures var (w, stage) := Advance(u, p.w, p.flights[i]);
      Inv(u, state, Plant(w, p.flights[i := p.flights[i].(stage := stage)], notes))
  {
    hide Linked, Leads, Holds, OnlyRows, Offer;
    var s := p.flights[i].stage;
    var took, line := p.flights[i].call.fate.takes(s.k), (s.r.seqNo, u.codec.line(s.r).value);
    assert Carries(p.w, s);
    OfferKept(u, state, p.w, s.r, s.k, took);
    var w := Offer(p.w, line, s.k, took);
    var fl := p.flights[i := p.flights[i].(stage := s.(told := true))];
    assert Carries(p.w, s.(told := true));
    hide Carries, Kept;
    forall j | 0 <= j < |fl| ensures Carries(w, fl[j].stage) && (j != i ==> Apart(fl[j].stage, fl[i].stage)) {
      if j != i {
        assert Apart(p.flights[if i < j then i else j].stage, p.flights[if i < j then j else i].stage);
      }
      OfferCarries(p.w, line, s.k, took, fl[j].stage);
    }
  }

  lemma NoteKeeps<S>(u: Setup, state: S, p: Plant<S>, i: nat, notes: seq<(nat, bool)>)
    requires Inv(u, state, p) && i < |p.flights| && p.flights[i].stage.Emitting? && p.flights[i].stage.told
    requires Offers(u, p.flights[i].stage.r, p.flights[i].stage.k)
    ensures var (w, stage) := Advance(u, p.w, p.flights[i]);
      Inv(u, state, Plant(w, p.flights[i := p.flights[i].(stage := stage)], notes))
  {
    hide Linked, Leads, Holds, OnlyRows;
    var s := p.flights[i].stage;
    var (w, stage) := Advance(u, p.w, p.flights[i]);
    var fl := p.flights[i := p.flights[i].(stage := stage)];
    forall j | 0 <= j < |fl| ensures Carries(w, fl[j].stage) && (j != i ==> Apart(fl[j].stage, fl[i].stage)) {
      if j != i {
        assert Apart(p.flights[if i < j then i else j].stage, p.flights[if i < j then j else i].stage);
      }
      assert Carries(p.w, p.flights[j].stage);
    }
  }

  // ---------------------------------------------------------------------
  // Every step, every run.

  lemma StageKeeps<S>(u: Setup, state: S, p: Plant<S>, i: nat, w: World<S>, stage: Stage, notes: seq<(nat, bool)>)
    requires Inv(u, state, p) && i < |p.flights| && !stage.Emitting? && w.(runs := p.w.runs) == p.w
    ensures Inv(u, state, Plant(w, p.flights[i := p.flights[i].(stage := stage)], notes))
  {
    hide Linked, Leads, Holds, OnlyRows;
  }

  lemma RecordsKeeps<S>(u: Setup, state: S, p: Plant<S>, i: nat, e: Entry, f: Fate, errors: set<Fault>)
    requires HashBlind(u.codec) && Inv(u, state, p) && i < |p.flights|
    ensures var (w, stage) := Records(u, p.w, e, f, errors);
      Inv(u, state, Plant(w, p.flights[i := p.flights[i].(stage := stage)], p.notes))
  {
    hide AppendTx, Linked, Inv, HashBlind;
    var t := Append(u, p.w, e, f);
    if t.None? {
      StageKeeps(u, state, p, i, p.w, Done(Answer(None, errors + {Unrecorded})), p.notes);
    } else {
      InvLinked(u, state, p);
      assert p.w.db.(state := p.w.db.state) == p.w.db;
      AppendHonest(u.codec, p.w.db, p.w.db.state, f.mint, e, f.recorded);
      SetsKeeps(u, state, p, i, t.value, errors);
    }
  }

  lemma InvLinked<S>(u: Setup, state: S, p: Plant<S>)
    requires Inv(u, state, p)
    ensures Linked(u.codec, p.w.db)
  {
  }

  lemma RunsKeep<S>(u: Setup, state: S, p: Plant<S>, runs: nat)
    requires Inv(u, state, p)
    ensures Inv(u, state, p.(w := p.w.(runs := runs)))
  {
    hide Linked, Leads, Holds, OnlyRows;
  }

  lemma AttemptsKeeps<S>(u: Setup, state: S, p: Plant<S>, i: nat)
    requires HashBlind(u.codec) && Inv(u, state, p) && i < |p.flights|
    ensures var (w, stage) := Attempts(u, p.w, p.flights[i].call);
      Inv(u, state, Plant(w, p.flights[i := p.flights[i].(stage := stage)], p.notes))
  {
    hide AppendTx, Linked, Inv, HashBlind;
    var c := p.flights[i].call;
    var (w, stage) := Attempts(u, p.w, c);
    if c.fate.begun && stage.Emitting? {
      var a := c.body(p.w.db.state);
      var text := if a.err.Some? then Some(a.err.value.text) else None;
      InvLinked(u, state, p);
      AppendHonest(u.codec, p.w.db, a.state, c.fate.mint,
                   EntryOf(c.now, c.req, OutcomeOf(a.err), a.detail, text), c.fate.inserted);
      RunsKeep(u, state, p, p.w.runs + 1);
      SetsKeeps(u, state, p.(w := p.w.(runs := p.w.runs + 1)), i,
                Transact(u, p.w.db, c.now, c.req, a, c.fate).value, if a.err.Some? then {Mutation} else {});
    } else {
      StageKeeps(u, state, p, i, w, stage, p.notes);
    }
  }

  lemma DoKeeps<S>(u: Setup, state: S, p: Plant<S>, e: Event<S>)
    requires HashBlind(u.codec) && Inv(u, state, p)
    ensures Inv(u, state, Do(u, p, e))
  {
    match e
    case Enter(c) =>
      hide Kept, Holds;
    case Move(i) =>
      hide Inv, HashBlind, Records, Attempts, Offer;
      if i < |p.flights| {
        var fl := p.flights[i];
        assert p.notes + [] == p.notes;
        match fl.stage
        case Refusing =>
          RecordsKeeps(u, state, p, i, EntryOf(fl.call.now, fl.call.req, Failure, map[], Some(fl.call.fate.why)),
                       fl.call.fate, {Refused});
        case Running => AttemptsKeeps(u, state, p, i);
        case Recording(entry, errors) => RecordsKeeps(u, state, p, i, entry, fl.call.fate, errors);
        case Emitting(r, k, told, errors) =>
          if Offers(u, r, k) {
            if told {
              NoteKeeps(u, state, p, i, p.notes + Noted(u, fl));
            } else {
              OfferKeeps(u, state, p, i, p.notes + Noted(u, fl));
            }
          } else {
            StageKeeps(u, state, p, i, p.w, Done(Answer(Some(r), errors)), p.notes);
          }
        case Done(out) => StageKeeps(u, state, p, i, p.w, fl.stage, p.notes);
      }
  }

  /** Over every interleaving of the steps of any calls, whatever is refused, fails or
      does not commit: the chain is dense and linked; each committed transaction holds
      exactly one record and no change beside a failure; and each sink holds only lines
      of committed records, each once. */
  lemma {:induction false} OverlapKeeps<S>(u: Setup, state: S, es: seq<Event<S>>)
    requires HashBlind(u.codec)
    ensures Inv(u, state, Overlap(u, state, es))
    decreases |es|
  {
    if es == [] {
    } else {
      hide Inv, Do;
      OverlapKeeps(u, state, es[..|es| - 1]);
      DoKeeps(u, state, Overlap(u, state, es[..|es| - 1]), es[|es| - 1]);
    }
  }

  /** What any interleaving leaves in the table is passed by the verifier from its
      genesis, with as many records as transactions committed. */
  lemma OverlapVerifies<S>(u: Setup, state: S, es: seq<Event<S>>, window: nat)
    requires HashBlind(u.codec) && window > 0
    ensures var w := Overlap(u, state, es).w;
      Verify(u.codec.hasher, window, Items(w.db.rows), WHOLE) == Clean(w.db.rows) && |w.db.rows| == |w.commits|
  {
    hide Verify, Overlap;
    OverlapKeeps(u, state, es);
    AppendsVerify(u.codec, Overlap(u, state, es).w.db, window);
  }

  // ---------------------------------------------------------------------
  // A sink that takes everything.

  /** A record is in the call's hand that has not been offered to sink i. */
  predicate Coming(s: Stage, i: nat) {
    s.Emitting? && Reached(s) <= i
  }

  predicate OnWay(s: Stage, i: nat, n: int) {
    Coming(s, i) && s.r.seqNo == n
  }

  /** Some call has record n in hand and has not come to sink i with it. */
  predicate InHand<S>(p: Plant<S>, i: nat, n: int) {
    exists j | 0 <= j < |p.flights| ::
      OnWay(p.flights[j].stage, i, n)
  }

  /** Every row is in the sink or on its way there. */
  ghost predicate Covered<S>(u: Setup, p: Plant<S>, i: nat) {
    && i < |p.w.sent|
    && (forall j | 0 <= j < |p.flights| :: p.flights[j].call.fate.takes(i))
    && forall n | 1 <= n <= |p.w.db.rows| :: Holds(p.w.sent[i], n) || InHand(p, i, n)
  }

  lemma HandStays<S>(p: Plant<S>, m: nat, fl: Flight<S>, q: Plant<S>, i: nat, n: int)
    requires m < |p.flights| && InHand(p, i, n) && q.flights == p.flights[m := fl]
    requires OnWay(p.flights[m].stage, i, n) ==> OnWay(fl.stage, i, n)
    ensures InHand(q, i, n)
  {
    var j :| 0 <= j < |p.flights| && OnWay(p.flights[j].stage, i, n);
    assert j != m ==> p.flights[m := fl][j] == p.flights[j];
    assert p.flights[m := fl][m] == fl;
  }

  lemma EnterCovers<S>(u: Setup, p: Plant<S>, c: Call<S>, i: nat)
    requires Covered(u, p, i) && c.fate.takes(i)
    ensures Covered(u, Do(u, p, Enter(c)), i)
  {
    hide Holds;
    var q := Do(u, p, Enter(c));
    forall n | 1 <= n <= |p.w.db.rows| ensures Holds(q.w.sent[i], n) || InHand(q, i, n) {
      if InHand(p, i, n) {
        var j :| 0 <= j < |p.flights| && OnWay(p.flights[j].stage, i, n);
        assert q.flights[j] == p.flights[j];
      }
    }
  }

  /** The step committed one record and goes on to hand it out. */
  predicate Commits(stage: Stage, before: nat, after: nat) {
    after == before + 1 && stage.Emitting? && stage.k == 0 && !stage.told && stage.r.seqNo == after
  }

  /** A step that hands nothing out, and commits at most one record. */
  lemma QuietCovers<S>(u: Setup, p: Plant<S>, m: nat, q: Plant<S>, stage: Stage, i: nat)
    requires Covered(u, p, i) && m < |p.flights| && !p.flights[m].stage.Emitting?
    requires q.flights == p.flights[m := p.flights[m].(stage := stage)] && q.w.sent == p.w.sent
    requires |q.w.db.rows| == |p.w.db.rows| || Commits(stage, |p.w.db.rows|, |q.w.db.rows|)
    ensures Covered(u, q, i)
  {
    hide Holds, InHand;
    var fl := p.flights[m].(stage := stage);
    forall n | 1 <= n <= |q.w.db.rows| ensures Holds(q.w.sent[i], n) || InHand(q, i, n) {
      if n <= |p.w.db.rows| {
        if InHand(p, i, n) {
          HandStays(p, m, fl, q, i, n);
        }
      } else {
        InHandAt(q, m, i);
      }
    }
  }

  lemma InHandAt<S>(q: Plant<S>, m: nat, i: nat)
    requires m < |q.flights| && q.flights[m].stage.Emitting? && Reached(q.flights[m].stage) <= i
    ensures InHand(q, i, q.flights[m].stage.r.seqNo)
  {
  }

  lemma OfferCovers<S>(u: Setup, state: S, p: Plant<S>, m: nat, i: nat)
    requires Inv(u, state, p) && Covered(u, p, i) && i < |u.sinks| && Printed(u.codec)
    requires m < |p.flights| && p.flights[m].stage.Emitting?
    ensures Covered(u, Do(u, p, Move(m)), i)
  {
    hide Holds, InHand, OnlyRows, Leads;
    var fl := p.flights[m];
    var s := fl.stage;
    assert Carries(p.w, s);
    assert LinkedAt(u.codec, p.w.db, s.r.seqNo - 1);
    assert u.codec.line(s.r).Some?;
    var q := Do(u, p, Move(m));
    forall n | 1 <= n <= |p.w.db.rows| ensures Holds(q.w.sent[i], n) || InHand(q, i, n) {
      if s.k < |u.sinks| && !s.told {
        HoldsSnoc(p.w.sent[i], (s.r.seqNo, u.codec.line(s.r).value), n);
      }
      if InHand(p, i, n) && (OnWay(s, i, n) ==> OnWay(q.flights[m].stage, i, n)) {
        HandStays(p, m, q.flights[m], q, i, n);
      }
    }
  }

  lemma MoveCovers<S>(u: Setup, state: S, p: Plant<S>, m: nat, i: nat)
    requires HashBlind(u.codec) && Printed(u.codec) && Inv(u, state, p) && Covered(u, p, i) && i < |u.sinks|
    ensures Covered(u, Do(u, p, Move(m)), i)
  {
    if m < |p.flights| {
      if p.flights[m].stage.Emitting? {
        OfferCovers(u, state, p, m, i);
      } else {
        InvLinked(u, state, p);
        QuietStep(u, p, m);
        hide Inv, Covered, Do;
        QuietCovers(u, p, m, Do(u, p, Move(m)), Advance(u, p.w, p.flights[m]).1, i);
      }
    }
  }

  lemma QuietStep<S>(u: Setup, p: Plant<S>, m: nat)
    requires HashBlind(u.codec) && Linked(u.codec, p.w.db) && m < |p.flights| && !p.flights[m].stage.Emitting?
    ensures var (w, stage) := Advance(u, p.w, p.flights[m]);
      && w.sent == p.w.sent
      && Do(u, p, Move(m)) == Plant(w, p.flights[m := p.flights[m].(stage := stage)], p.notes)
      && if stage.Emitting? then Commits(stage, |p.w.db.rows|, |w.db.rows|) else |w.db.rows| == |p.w.db.rows|
  {
    hide AppendTx, EntryOf, Linked, HashBlind;
    var fl := p.flights[m];
    var c := fl.call;
    assert p.notes + [] == p.notes;
    match fl.stage
    case Refusing => RecordsOne(u, p.w, EntryOf(c.now, c.req, Failure, map[], Some(c.fate.why)), c.fate, {Refused});
    case Recording(e, errors) => RecordsOne(u, p.w, e, c.fate, errors);
    case Running =>
      var a := c.body(p.w.db.state);
      if c.fate.begun && Transact(u, p.w.db, c.now, c.req, a, c.fate).Some? {
        var text := if a.err.Some? then Some(a.err.value.text) else None;
        AppendNumber(u.codec, p.w.db, a.state, c.fate.mint,
                     EntryOf(c.now, c.req, OutcomeOf(a.err), a.detail, text), c.fate.inserted);
      }
    case _ =>
  }

  lemma RecordsOne<S>(u: Setup, w: World<S>, e: Entry, f: Fate, errors: set<Fault>)
    requires HashBlind(u.codec) && Linked(u.codec, w.db)
    ensures var (v, stage) := Records(u, w, e, f, errors);
      && v.sent == w.sent
      && if stage.Emitting? then Commits(stage, |w.db.rows|, |v.db.rows|) else v == w
  {
    hide AppendTx, Linked, HashBlind;
    assert w.db.(state := w.db.state) == w.db;
    if Append(u, w, e, f).Some? {
      AppendNumber(u.codec, w.db, w.db.state, f.mint, e, f.recorded);
    }
  }

  lemma AppendNumber<S>(c: Codec, db: Db<S>, state: S, mint: string, e: Entry, inserted: bool)
    requires HashBlind(c) && Linked(c, db) && AppendTx(c, db.(state := state), mint, e, inserted).Some?
    ensures var t := AppendTx(c, db.(state := state), mint, e, inserted).value;
      |t.rows| == |db.rows| + 1 && t.rows[|t.rows| - 1].seqNo == |t.rows|
  {
    var tx := db.(state := state);
    forall i | 0 <= i < |db.rows| ensures LinkedAt(c, tx, i) {
      assert LinkedAt(c, db, i);
    }
    AppendKeeps(c, tx, mint, e, inserted);
    var t := AppendTx(c, tx, mint, e, inserted).value;
    assert LinkedAt(c, t, |t.rows| - 1);
  }

  /** With a sink that takes everything, every row is in it or in some call's hand, after
      every interleaving; and when every call is answered, all of them are in it. */
  lemma {:induction false} OverlapCovers<S>(u: Setup, state: S, es: seq<Event<S>>, i: nat)
    requires HashBlind(u.codec) && Printed(u.codec) && i < |u.sinks|
    requires forall k | 0 <= k < |es| && es[k].Enter? :: es[k].call.fate.takes(i)
    ensures Covered(u, Overlap(u, state, es), i)
    decreases |es|
  {
    if es == [] {
    } else {
      hide Inv, Covered, Do, Printed, HashBlind;
      var before, e := es[..|es| - 1], es[|es| - 1];
      OverlapCovers(u, state, before, i);
      OverlapKeeps(u, state, before);
      match e
      case Enter(c) => EnterCovers(u, Overlap(u, state, before), c, i);
      case Move(m) => MoveCovers(u, state, Overlap(u, state, before), m, i);
    }
  }

  predicate Answered<S>(p: Plant<S>) {
    forall j | 0 <= j < |p.flights| :: p.flights[j].stage.Done?
  }

  lemma AllIn<S>(u: Setup, p: Plant<S>, i: nat)
    requires Covered(u, p, i) && Answered(p)
    ensures forall n | 1 <= n <= |p.w.db.rows| :: Holds(p.w.sent[i], n)
  {
    hide Holds;
  }
}
