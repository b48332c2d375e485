/** In what order the records of overlapping calls reach a sink. */
module AuditOrder {
  import opened Prelude
  import opened AuditRecord
  import opened AuditChain
  import opened AuditLog
  import AuditRuns
  import opened AuditSteps
  import opened AuditOverlap

  predicate Ascends(lines: seq<(int, string)>) {
    forall i, j | 0 <= i < j < |lines| :: lines[i].0 < lines[j].0
  }

  /** A record below n is on its way to sink i. */
  predicate Behind<S>(p: Plant<S>, i: nat, n: int) {
    exists j | 0 <= j < |p.flights| :: Coming(p.flights[j].stage, i) && p.flights[j].stage.r.seqNo < n
  }

  /** The step hands sink i a record. */
  predicate Hands<S>(u: Setup, p: Plant<S>, e: Event<S>, i: nat) {
    && e.Move? && e.i < |p.flights|
    && var x := p.flights[e.i];
    && x.stage.Emitting? && x.stage.k == i && !x.stage.told && Offers(u, x.stage.r, i) && x.call.fate.takes(i)
  }

  /** The step hands sink i a record past a lower one that is still on its way there. */
  predicate Overtakes<S>(u: Setup, p: Plant<S>, e: Event<S>, i: nat) {
    Hands(u, p, e, i) && Behind(p, i, p.flights[e.i].stage.r.seqNo)
  }

  predicate NoneOvertakes<S>(u: Setup, state: S, es: seq<Event<S>>, i: nat)
    decreases |es|
  {
    es == [] ||
    (NoneOvertakes(u, state, es[..|es| - 1], i) && !Overtakes(u, Overlap(u, state, es[..|es| - 1]), es[|es| - 1], i))
  }

  // ---------------------------------------------------------------------
  // Nothing overtaken, and the lines ascend.

  /** Every line in sink i is below every record still on its way there. */
  ghost predicate AllBelow<S>(p: Plant<S>, i: nat) {
    && i < |p.w.sent| && Ascends(p.w.sent[i])
    && forall j | 0 <= j < |p.flights| && Coming(p.flights[j].stage, i) :: BelowAll(p.w.sent[i], p.flights[j].stage.r.seqNo)
  }

  predicate BelowAll(lines: seq<(int, string)>, n: int) {
    forall l | 0 <= l < |lines| :: lines[l].0 < n
  }

  lemma AscendsSnoc(lines: seq<(int, string)>, line: (int, string))
    requires Ascends(lines) && BelowAll(lines, line.0)
    ensures Ascends(lines + [line])
    ensures forall n | BelowAll(lines, n) && line.0 < n :: BelowAll(lines + [line], n)
  {
  }

  lemma SentStep<S>(u: Setup, p: Plant<S>, e: Event<S>, i: nat)
    requires i < |p.w.sent| == |u.sinks|
    ensures var q := Do(u, p, e);
      && |q.w.sent| == |p.w.sent|
      && (!Hands(u, p, e, i) ==> q.w.sent[i] == p.w.sent[i])
      && (Hands(u, p, e, i) ==>
            var s := p.flights[e.i].stage;
            q.w.sent[i] == p.w.sent[i] + [(s.r.seqNo, u.codec.line(s.r).value)])
  {
    hide Append, Transact, EntryOf;
  }

  /** A record on its way after a step was on its way before it, and was not what the
      step handed over, or has just been committed. */
  lemma ComingStep<S>(u: Setup, p: Plant<S>, e: Event<S>, i: nat, j: nat)
    requires HashBlind(u.codec) && Linked(u.codec, p.w.db)
    requires j < |Do(u, p, e).flights| && Coming(Do(u, p, e).flights[j].stage, i)
    ensures var s := Do(u, p, e).flights[j].stage;
      || (e.Move? && e.i < |p.flights| && !p.flights[e.i].stage.Emitting? && s.r.seqNo == |p.w.db.rows| + 1)
      || (&& j < |p.flights| && Coming(p.flights[j].stage, i) && p.flights[j].stage.r == s.r
          && !(Hands(u, p, e, i) && e.i == j))
  {
    hide Linked, HashBlind, Records, Attempts, EntryOf;
    if e.Move? && e.i == j && !p.flights[j].stage.Emitting? {
      QuietStep(u, p, j);
    }
  }

  /** Two calls on their way hold different records. */
  lemma OthersApart<S>(u: Setup, state: S, p: Plant<S>, i: nat, j: nat)
    requires Inv(u, state, p) && i < |p.flights| && j < |p.flights| && i != j
    requires p.flights[i].stage.Emitting? && p.flights[j].stage.Emitting?
    ensures p.flights[i].stage.r.seqNo != p.flights[j].stage.r.seqNo
  {
    assert Apart(p.flights[if i < j then i else j].stage, p.flights[if i < j then j else i].stage);
  }

  lemma SentBound<S>(u: Setup, state: S, p: Plant<S>, i: nat)
    requires Inv(u, state, p) && i < |p.w.sent|
    ensures BelowAll(p.w.sent[i], |p.w.db.rows| + 1)
  {
    var lines := p.w.sent[i];
    assert OnlyRows(u, p.w.db.rows, lines);
    forall l | 0 <= l < |lines| ensures lines[l].0 < |p.w.db.rows| + 1 {
      assert AuditRuns.IsRow(u, p.w.db.rows, lines[l]);
    }
  }

  lemma BelowStep<S>(u: Setup, state: S, p: Plant<S>, e: Event<S>, i: nat)
    requires HashBlind(u.codec) && Inv(u, state, p) && i < |u.sinks|
    requires AllBelow(p, i) && !Overtakes(u, p, e, i)
    ensures AllBelow(Do(u, p, e), i)
  {
    InvLinked(u, state, p);
    SentCount(u, state, p);
    SentBound(u, state, p, i);
    SentStep(u, p, e, i);
    hide HashBlind, Linked, Inv, Do, BelowAll, Ascends;
    var q := Do(u, p, e);
    var handed := if Hands(u, p, e, i) then p.flights[e.i].stage.r.seqNo else 0;
    if Hands(u, p, e, i) {
      AscendsSnoc(p.w.sent[i], (handed, u.codec.line(p.flights[e.i].stage.r).value));
    }
    forall j | 0 <= j < |q.flights| && Coming(q.flights[j].stage, i)
      ensures BelowAll(q.w.sent[i], q.flights[j].stage.r.seqNo)
    {
      ComingStep(u, p, e, i, j);
      var n := q.flights[j].stage.r.seqNo;
      assert BelowAll(p.w.sent[i], n);
      if Hands(u, p, e, i) {
        OthersApart(u, state, p, e.i, j);
        assert !Behind(p, i, handed);
        assert handed < n;
      }
    }
  }

  lemma SentCount<S>(u: Setup, state: S, p: Plant<S>)
    requires Inv(u, state, p)
    ensures |p.w.sent| == |u.sinks|
  {
  }

  /** Over every interleaving: if no record is handed to a sink past a lower one still on
      its way there, the sink's lines ascend. */
  lemma {:induction false} KeepsOrder<S>(u: Setup, state: S, es: seq<Event<S>>, i: nat)
    requires HashBlind(u.codec) && i < |u.sinks| && NoneOvertakes(u, state, es, i)
    ensures AllBelow(Overlap(u, state, es), i)
    decreases |es|
  {
    if es == [] {
    } else {
      hide Inv, Do, Overtakes, AllBelow, HashBlind;
      KeepsOrder(u, state, es[..|es| - 1], i);
      OverlapKeeps(u, state, es[..|es| - 1]);
      BelowStep(u, state, Overlap(u, state, es[..|es| - 1]), es[|es| - 1], i);
    }
  }

  // ---------------------------------------------------------------------
  // A sink that takes everything shows every overtaking.

  lemma RowsGrow<S>(u: Setup, p: Plant<S>, e: Event<S>)
    requires HashBlind(u.codec) && Linked(u.codec, p.w.db)
    ensures |p.w.db.rows| <= |Do(u, p, e).w.db.rows|
  {
    hide Linked, HashBlind, Records, Attempts, EntryOf;
    if e.Move? && e.i < |p.flights| && !p.flights[e.i].stage.Emitting? {
      QuietStep(u, p, e.i);
    }
  }

  /** What a sink holds and the table has at some moment they have later. */
  lemma {:induction false} SentGrows<S>(u: Setup, state: S, es: seq<Event<S>>, k: nat, i: nat)
    requires HashBlind(u.codec) && i < |u.sinks| && k <= |es|
    ensures var v, w := Overlap(u, state, es[..k]).w, Overlap(u, state, es).w;
      i < |v.sent| && i < |w.sent| && v.sent[i] <= w.sent[i] && |v.db.rows| <= |w.db.rows|
    decreases |es|
  {
    hide Inv, Do, HashBlind;
    if k == |es| {
      assert es[..k] == es;
      OverlapKeeps(u, state, es);
      SentCount(u, state, Overlap(u, state, es));
    } else {
      var before := es[..|es| - 1];
      assert before[..k] == es[..k];
      SentGrows(u, state, before, k, i);
      OverlapKeeps(u, state, before);
      var p := Overlap(u, state, before);
      InvLinked(u, state, p);
      SentCount(u, state, p);
      SentStep(u, p, es[|es| - 1], i);
      RowsGrow(u, p, es[|es| - 1]);
    }
  }

  /** The overtaken record comes later, below one that is already there. */
  lemma Inverted(lines: seq<(int, string)>, before: seq<(int, string)>, line: (int, string), n: int)
    requires before + [line] <= lines && !Holds(before, n) && n < line.0 && Holds(lines, n)
    ensures !Ascends(lines)
  {
    var y :| 0 <= y < |lines| && lines[y].0 == n;
    var x := |before|;
    assert lines[x] == (before + [line])[x] == line;
    forall l | 0 <= l < x ensures lines[l].0 != n {
      assert lines[l] == (before + [line])[l] == before[l];
    }
  }

  /** All calls are answered, and sink i took everything. */
  predicate Complete<S>(u: Setup, state: S, es: seq<Event<S>>, i: nat) {
    && (forall k | 0 <= k < |es| && es[k].Enter? :: es[k].call.fate.takes(i))
    && Answered(Overlap(u, state, es))
  }

  lemma Overtaken<S>(u: Setup, state: S, es: seq<Event<S>>, k: nat, i: nat)
    requires HashBlind(u.codec) && AuditRuns.Printed(u.codec) && i < |u.sinks| && Complete(u, state, es, i)
    requires k < |es| && Overtakes(u, Overlap(u, state, es[..k]), es[k], i)
    ensures i < |Overlap(u, state, es).w.sent| && !Ascends(Overlap(u, state, es).w.sent[i])
  {
    var p, q, z := Overlap(u, state, es[..k]), Overlap(u, state, es[..k + 1]), Overlap(u, state, es);
    assert es[..k + 1][..k] == es[..k];
    assert q == Do(u, p, es[k]);
    OverlapKeeps(u, state, es[..k]);
    SentCount(u, state, p);
    SentStep(u, p, es[k], i);
    SentGrows(u, state, es, k + 1, i);
    SentGrows(u, state, es, k, i);
    OverlapCovers(u, state, es, i);
    AllIn(u, z, i);
    var s := p.flights[es[k].i].stage;
    var j :| 0 <= j < |p.flights| && Coming(p.flights[j].stage, i) && p.flights[j].stage.r.seqNo < s.r.seqNo;
    assert Carries(p.w, p.flights[j].stage);
    Inverted(z.w.sent[i], p.w.sent[i], (s.r.seqNo, u.codec.line(s.r).value), p.flights[j].stage.r.seqNo);
  }

  lemma {:induction false} NeverOvertaken<S>(u: Setup, state: S, es: seq<Event<S>>, k: nat, i: nat)
    requires HashBlind(u.codec) && AuditRuns.Printed(u.codec) && i < |u.sinks| && Complete(u, state, es, i) && k <= |es|
    requires i < |Overlap(u, state, es).w.sent| && Ascends(Overlap(u, state, es).w.sent[i])
    ensures NoneOvertakes(u, state, es[..k], i)
  {
    if k > 0 {
      hide Overlap, Overtakes, Ascends, Complete, HashBlind, AuditRuns.Printed;
      NeverOvertaken(u, state, es, k - 1, i);
      assert es[..k][..k - 1] == es[..k - 1] && es[..k][k - 1] == es[k - 1];
      if Overtakes(u, Overlap(u, state, es[..k - 1]), es[k - 1], i) {
        Overtaken(u, state, es, k - 1, i);
      }
    }
  }

  /** Once every call is answered, the lines of a sink that took everything ascend if and
      only if no record was handed to it past a lower one still on its way there. */
  lemma OrderExact<S>(u: Setup, state: S, es: seq<Event<S>>, i: nat)
    requires HashBlind(u.codec) && AuditRuns.Printed(u.codec) && i < |u.sinks| && Complete(u, state, es, i)
    ensures i < |Overlap(u, state, es).w.sent|
    ensures Ascends(Overlap(u, state, es).w.sent[i]) <==> NoneOvertakes(u, state, es, i)
  {
    hide Overlap, NoneOvertakes, Ascends, Complete, HashBlind, AuditRuns.Printed;
    SentGrows(u, state, es, |es|, i);
    if NoneOvertakes(u, state, es, i) {
      KeepsOrder(u, state, es, i);
    }
    if Ascends(Overlap(u, state, es).w.sent[i]) {
      NeverOvertaken(u, state, es, |es|, i);
      assert es[..|es|] == es;
    }
  }
}
