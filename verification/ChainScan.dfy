/** A source already in order, as the database yields it: the look-ahead verifier
    is then one plain scan, and says exactly which deletions can be noticed. */
module ChainScan {
  import opened Prelude
  import opened AuditRecord
  import opened ChainVerify
  import opened ChainExact
  import opened ChainLaws
  import opened ChainDisorder

  ghost predicate Ascending(rs: seq<Rec>) {
    forall i, j | 0 <= i < j < |rs| :: rs[i].seqNo < rs[j].seqNo
  }

  /** Each record against the one before it, and nothing held. */
  function Walk(compute: Hasher, prev: Option<Rec>, next: int, res: Result, rs: seq<Rec>): Result
    decreases |rs|
  {
    if rs == [] then res
    else if rs[0].seqNo != next then res.(brk := Some(Problem(next, Gap)))
    else
      var fault := Fault(compute, prev, rs[0]);
      if fault.Some? then res.(brk := fault)
      else Walk(compute, Some(rs[0]), next + 1, Tally(res, prev, rs[0]), rs[1..])
  }

  function Scan(compute: Hasher, opts: Opts, rs: seq<Rec>): Result {
    if rs == [] then EMPTY
    else
      var res := Open(opts, rs[0]);
      if res.OK() then Walk(compute, None, rs[0].seqNo, res, rs) else res
  }

  // ---------------------------------------------------------------------
  // The machine, whatever the order inside the window.

  /** No record of u stands a window or more behind its rank in todo, held being held. */
  ghost predicate InStep(window: nat, held: nat, todo: seq<Rec>, u: seq<Rec>) {
    forall p, i | 0 <= p < |u| && 0 <= i < |todo| && u[p] == todo[i] :: held + p < window + i
  }

  /** s has todo before it: what it holds and what it has to read in u; tail comes after. */
  ghost predicate Around(window: nat, todo: seq<Rec>, u: seq<Rec>, tail: seq<Item>, s: State) {
    && Ascending(todo) && Distinct(u) && s.rest == Items(u) + tail && s.res.OK()
    && (forall k | k in s.pending :: s.pending[k].seqNo == k && s.pending[k] in todo)
    && (forall r | r in u :: r in todo && r.seqNo !in s.pending)
    && (forall r | r in todo :: r in u || Holds(s, r))
    && InStep(window, |s.pending|, todo, u)
    && (s.prev.Some? ==> forall r | r in todo :: r.seqNo >= s.next)
  }

  predicate Holds(s: State, r: Rec) {
    r.seqNo in s.pending && s.pending[r.seqNo] == r
  }

  lemma ItemsTail(u: seq<Rec>, tail: seq<Item>)
    requires u != []
    ensures var all := Items(u) + tail; all[0] == Line(u[0]) && all[1..] == Items(u[1..]) + tail
  {
    assert Items(u)[1..] == Items(u[1..]);
  }

  lemma DistinctTail(u: seq<Rec>)
    requires u != [] && Distinct(u)
    ensures Distinct(u[1..]) && forall r | r in u[1..] :: r in u && r.seqNo != u[0].seqNo
  {
    forall i, j | 0 <= i < j < |u[1..]| ensures u[1..][i].seqNo != u[1..][j].seqNo {
      assert u[1..][i] == u[i + 1] && u[1..][j] == u[j + 1];
    }
    forall r | r in u[1..] ensures r in u && r.seqNo != u[0].seqNo {
      var i :| 0 <= i < |u[1..]| && u[1..][i] == r;
      assert u[i + 1] == r;
    }
  }

  lemma StepIn(window: nat, held: nat, todo: seq<Rec>, u: seq<Rec>)
    requires u != [] && InStep(window, held, todo, u)
    ensures InStep(window, held + 1, todo, u[1..])
  {
    forall p, i | 0 <= p < |u[1..]| && 0 <= i < |todo| && u[1..][p] == todo[i] ensures held + 1 + p < window + i {
      assert u[p + 1] == todo[i];
    }
  }

  lemma ReadAround(compute: Hasher, window: nat, todo: seq<Rec>, u: seq<Rec>, tail: seq<Item>, s: State)
    requires Around(window, todo, u, tail, s) && u != []
    ensures s.rest != [] && s.rest[0] == Line(u[0]) && Admit(compute, s, u[0]).Hold?
    ensures var t := Read(compute, s);
      && Around(window, todo, u[1..], tail, t) && t.(rest := s.rest, pending := s.pending) == s
      && |t.pending| == |s.pending| + 1
  {
    var r, t := u[0], Read(compute, s);
    ItemsTail(u, tail);
    DistinctTail(u);
    StepIn(window, |s.pending|, todo, u);
    hide InStep, Ascending, Distinct;
    assert r in u;
    forall x | x in todo ensures x in u[1..] || Holds(t, x) {
      if x in u && x != r {
        assert u == [r] + u[1..];
      }
    }
  }

  lemma {:induction false} FillAround(compute: Hasher, window: nat, todo: seq<Rec>, u: seq<Rec>, tail: seq<Item>, s: State)
      returns (u': seq<Rec>, s': State)
    requires Around(window, todo, u, tail, s)
    ensures Around(window, todo, u', tail, s') && Fill(compute, window, s) == Fill(compute, window, s')
    ensures |s'.pending| >= window || u' == []
    ensures s'.(rest := s.rest, pending := s.pending) == s && |s'.pending| >= |s.pending|
    ensures |s.pending| <= window ==> |s'.pending| <= window
    ensures |s'.pending| + |u'| == |s.pending| + |u|
    decreases |u|
  {
    if |s.pending| >= window || u == [] {
      u', s' := u, s;
    } else {
      ReadAround(compute, window, todo, u, tail, s);
      hide Around, Read;
      FillStep(compute, window, s);
      u', s' := FillAround(compute, window, todo, u[1..], tail, Read(compute, s));
    }
  }

  lemma FillEnds(compute: Hasher, window: nat, s: State)
    requires s.res.OK() && (|s.pending| >= window || s.rest == [])
    ensures Fill(compute, window, s) == s
  {
  }

  /** What is due next is held. */
  lemma FirstHeld(window: nat, todo: seq<Rec>, u: seq<Rec>, tail: seq<Item>, s: State)
    requires Around(window, todo, u, tail, s) && todo != [] && (|s.pending| >= window || u == [])
    ensures Holds(s, todo[0]) && s.pending != map[] && Min(s.pending.Keys) == todo[0].seqNo
  {
    assert todo[0] in todo;
    forall p | 0 <= p < |u| ensures u[p] != todo[0] {
    }
    var m := Min(s.pending.Keys);
    var i :| 0 <= i < |todo| && todo[i] == s.pending[m];
  }

  lemma DueOrGap(window: nat, todo: seq<Rec>, u: seq<Rec>, tail: seq<Item>, s: State)
    requires Around(window, todo, u, tail, s) && (|s.pending| >= window || u == []) && window > 0
    requires forall r | r in todo :: r.seqNo >= s.next
    ensures s.next in s.pending <==> todo != [] && todo[0].seqNo == s.next
    ensures s.pending == map[] <==> todo == []
  {
    if todo != [] {
      FirstHeld(window, todo, u, tail, s);
      if s.next in s.pending {
        var i :| 0 <= i < |todo| && todo[i] == s.pending[s.next];
        assert todo[0] in todo;
      }
    } else {
      assert forall k :: k !in s.pending;
    }
  }

  lemma AscendingTail(todo: seq<Rec>)
    requires Ascending(todo) && todo != []
    ensures Ascending(todo[1..]) && forall r | r in todo[1..] :: r in todo && r.seqNo > todo[0].seqNo
    ensures forall r | r in todo :: r == todo[0] || r in todo[1..]
  {
    assert todo == [todo[0]] + todo[1..];
    forall r | r in todo[1..] ensures r in todo && r.seqNo > todo[0].seqNo {
      var i :| 0 <= i < |todo[1..]| && todo[1..][i] == r;
      assert todo[i + 1] == r;
    }
  }

  lemma StepOut(window: nat, held: nat, todo: seq<Rec>, u: seq<Rec>)
    requires todo != [] && held > 0 && InStep(window, held, todo, u)
    ensures InStep(window, held - 1, todo[1..], u)
  {
    forall p, i | 0 <= p < |u| && 0 <= i < |todo[1..]| && u[p] == todo[1..][i] ensures held - 1 + p < window + i {
      assert u[p] == todo[i + 1];
    }
  }

  lemma ConsumeAround(window: nat, todo: seq<Rec>, u: seq<Rec>, tail: seq<Item>, s: State)
    requires Around(window, todo, u, tail, s) && todo != [] && s.next == todo[0].seqNo && Holds(s, todo[0])
    ensures var t := Consume(s);
      && Around(window, todo[1..], u, tail, t) && |t.pending| == |s.pending| - 1
      && t.res == Tally(s.res, s.prev, todo[0]) && t.prev == Some(todo[0]) && t.next == s.next + 1
      && t.damaged == s.damaged
  {
    hide Tally;
    var t, tl := Consume(s), todo[1..];
    PendingShrinks(s.pending, s.next);
    AscendingTail(todo);
    StepOut(window, |s.pending|, todo, u);
    TallyOK(s.res, s.prev, todo[0]);
    hide InStep, Ascending, Distinct;
    forall k | k in t.pending ensures t.pending[k].seqNo == k && t.pending[k] in tl {
      assert s.pending[k] in todo;
    }
    UnreadStays(todo, u, s);
    StillHeld(todo, u, s, t);
  }

  lemma UnreadStays(todo: seq<Rec>, u: seq<Rec>, s: State)
    requires todo != [] && Holds(s, todo[0]) && forall r | r in u :: r in todo && r.seqNo !in s.pending
    ensures forall r | r in u :: r in todo[1..]
  {
    assert todo == [todo[0]] + todo[1..];
  }

  lemma StillHeld(todo: seq<Rec>, u: seq<Rec>, s: State, t: State)
    requires todo != [] && t.pending == s.pending - {todo[0].seqNo}
    requires forall r | r in todo :: r in u || Holds(s, r)
    requires forall r | r in todo[1..] :: r in todo && r.seqNo > todo[0].seqNo
    ensures forall r | r in todo[1..] :: r in u || Holds(t, r)
  {
  }

  lemma TallyOK(res: Result, prev: Option<Rec>, r: Rec)
    ensures Tally(res, prev, r).OK() <==> res.OK()
  {
  }

  /** One record consumed, and the look-ahead full again or the records read. */
  lemma TurnAround(compute: Hasher, window: nat, todo: seq<Rec>, u: seq<Rec>, tail: seq<Item>, s: State)
      returns (u': seq<Rec>, t: State)
    requires Around(window, todo, u, tail, s) && todo != [] && s.next == todo[0].seqNo && Holds(s, todo[0])
    requires Fault(compute, s.prev, todo[0]).None?
    ensures Around(window, todo[1..], u', tail, t) && (|t.pending| >= window || u' == [])
    ensures t.res == Tally(s.res, s.prev, todo[0]) && t.prev == Some(todo[0]) && t.next == s.next + 1
    ensures t.damaged == s.damaged && (|s.pending| <= window ==> |t.pending| <= window)
    ensures |s.pending| - 1 <= |t.pending| && |t.pending| + |u'| == |s.pending| - 1 + |u|
    ensures Run(compute, window, s) ==
      var z := Fill(compute, window, t); if z.res.OK() then Run(compute, window, z) else z.res
  {
    hide Around, Tally, Fill;
    ConsumeAround(window, todo, u, tail, s);
    assert Consume(s).res.OK() by { TallyOK(s.res, s.prev, todo[0]); AroundOK(window, todo, u, tail, s); }
    u', t := FillAround(compute, window, todo[1..], u, tail, Consume(s));
  }

  lemma AroundOK(window: nat, todo: seq<Rec>, u: seq<Rec>, tail: seq<Item>, s: State)
    requires Around(window, todo, u, tail, s)
    ensures s.res.OK()
  {
  }

  lemma RunStops(compute: Hasher, window: nat, s: State)
    requires s.res.OK()
    ensures s.next !in s.pending ==> Run(compute, window, s) == Finish(s)
    ensures s.next in s.pending && Fault(compute, s.prev, s.pending[s.next]).Some? ==>
      Run(compute, window, s) == s.res.(brk := Fault(compute, s.prev, s.pending[s.next]))
  {
    hide Fill, Consume, Fault;
  }

  lemma WalkStep(compute: Hasher, prev: Option<Rec>, next: int, res: Result, rs: seq<Rec>)
    requires rs != [] && rs[0].seqNo == next && Fault(compute, prev, rs[0]).None?
    ensures Walk(compute, prev, next, res, rs) ==
      Walk(compute, Some(rs[0]), next + 1, Tally(res, prev, rs[0]), rs[1..])
  {
    hide Tally;
  }

  /** The first record still to come is the one due, and may follow. */
  predicate Goes(compute: Hasher, prev: Option<Rec>, next: int, todo: seq<Rec>) {
    todo != [] && todo[0].seqNo == next && Fault(compute, prev, todo[0]).None?
  }

  lemma WalkStops(compute: Hasher, window: nat, todo: seq<Rec>, u: seq<Rec>, s: State)
    requires window > 0 && Around(window, todo, u, [], s) && (|s.pending| >= window || u == []) && !s.damaged
    requires (forall r | r in todo :: r.seqNo >= s.next) && !Goes(compute, s.prev, s.next, todo)
    ensures Run(compute, window, s) == Walk(compute, s.prev, s.next, s.res, todo)
  {
    hide Run, Around, Fault;
    AroundOK(window, todo, u, [], s);
    DueOrGap(window, todo, u, [], s);
    if todo != [] {
      FirstHeld(window, todo, u, [], s);
    }
    RunStops(compute, window, s);
  }

  lemma WalkGoes(compute: Hasher, window: nat, todo: seq<Rec>, u: seq<Rec>, s: State) returns (u': seq<Rec>, t: State)
    requires window > 0 && Around(window, todo, u, [], s) && (|s.pending| >= window || u == []) && !s.damaged
    requires Goes(compute, s.prev, s.next, todo)
    ensures Around(window, todo[1..], u', [], t) && (|t.pending| >= window || u' == []) && !t.damaged
    ensures forall r | r in todo[1..] :: r.seqNo >= t.next
    ensures s.res.OK() && t.res.OK() && Run(compute, window, s) == Run(compute, window, t)
    ensures Walk(compute, s.prev, s.next, s.res, todo) == Walk(compute, t.prev, t.next, t.res, todo[1..])
  {
    hide Run, Fill, Around, Walk, Tally, Fault, Ascending;
    AroundOK(window, todo, u, [], s);
    FirstHeld(window, todo, u, [], s);
    AroundAscends(window, todo, u, [], s);
    AscendingTail(todo);
    u', t := TurnAround(compute, window, todo, u, [], s);
    RestEnds(window, todo[1..], u', t);
    FillEnds(compute, window, t);
    WalkStep(compute, s.prev, s.next, s.res, todo);
  }

  lemma {:induction false} RunWalks(compute: Hasher, window: nat, todo: seq<Rec>, u: seq<Rec>, s: State)
    requires window > 0 && Around(window, todo, u, [], s) && (|s.pending| >= window || u == []) && !s.damaged
    requires forall r | r in todo :: r.seqNo >= s.next
    ensures s.res.OK() && Run(compute, window, s) == Walk(compute, s.prev, s.next, s.res, todo)
    decreases |todo|
  {
    hide Run, Around, Walk;
    AroundOK(window, todo, u, [], s);
    if Goes(compute, s.prev, s.next, todo) {
      var u', t := WalkGoes(compute, window, todo, u, s);
      RunWalks(compute, window, todo[1..], u', t);
    } else {
      WalkStops(compute, window, todo, u, s);
    }
  }

  lemma AroundAscends(window: nat, todo: seq<Rec>, u: seq<Rec>, tail: seq<Item>, s: State)
    requires Around(window, todo, u, tail, s)
    ensures Ascending(todo)
  {
  }

  /** Before anything is consumed. */
  lemma StartAround(window: nat, rs: seq<Rec>, c: seq<Rec>, tail: seq<Item>)
    requires Arranged(window, rs, c)
    ensures Around(window, c, rs, tail, Start(Items(rs) + tail))
  {
  }

  /** rs holds the records of c, each once, none a window or more behind its rank. */
  ghost predicate Arranged(window: nat, rs: seq<Rec>, c: seq<Rec>) {
    Ascending(c) && Distinct(rs) && SameRecords(rs, c) && InStep(window, 0, c, rs)
  }

  lemma BeginAround(opts: Opts, window: nat, todo: seq<Rec>, u: seq<Rec>, tail: seq<Item>, s: State)
    requires Around(window, todo, u, tail, s) && todo != [] && s.prev.None? && (|s.pending| >= window || u == [])
    ensures s.pending != map[]
    ensures var t := Begin(opts, s);
      && t.res == Open(opts, todo[0]) && t.next == todo[0].seqNo && t.prev.None? && t.pending == s.pending
      && t.damaged == s.damaged && (t.res.OK() ==> Around(window, todo, u, tail, t))
      && (forall r | r in todo :: r.seqNo >= t.next)
  {
    FirstHeld(window, todo, u, tail, s);
  }

  /** Inside the window order does not matter: the verifier's result over records in any
      order, breaks and all, is that of one plain scan over the records sorted. */
  lemma ArrangedScan(compute: Hasher, window: nat, opts: Opts, rs: seq<Rec>, c: seq<Rec>)
    requires window > 0 && Arranged(window, rs, c)
    ensures Verify(compute, window, Items(rs), opts) == Scan(compute, opts, c)
  {
    hide Run, Fill, Walk, Around, Open, Arranged;
    assert Items(rs) + [] == Items(rs);
    StartAround(window, rs, c, []);
    var u, s := FillAround(compute, window, c, rs, [], Start(Items(rs)));
    RestEnds(window, c, u, s);
    FillEnds(compute, window, s);
    if c == [] {
      NothingHeld(window, u, s);
    } else {
      BeginAround(opts, window, c, u, [], s);
      var t := Begin(opts, s);
      if t.res.OK() {
        RunWalks(compute, window, c, u, t);
      }
    }
  }

  lemma RestEnds(window: nat, todo: seq<Rec>, u: seq<Rec>, s: State)
    requires Around(window, todo, u, [], s)
    ensures u == [] ==> s.rest == []
    ensures s.res.OK()
  {
  }

  lemma NothingHeld(window: nat, u: seq<Rec>, s: State)
    requires Around(window, [], u, [], s)
    ensures s.pending == map[]
  {
    assert forall k :: k !in s.pending;
  }

  lemma SelfArranged(window: nat, rs: seq<Rec>)
    requires window > 0 && Ascending(rs)
    ensures Arranged(window, rs, rs)
  {
  }

  /** On records in ascending order the windowed verifier is the plain scan, in
      every field of its result and whatever the window. */
  lemma ScanRefined(compute: Hasher, window: nat, opts: Opts, rs: seq<Rec>)
    requires window > 0 && Ascending(rs)
    ensures Verify(compute, window, Items(rs), opts) == Scan(compute, opts, rs)
  {
    SelfArranged(window, rs);
    ArrangedScan(compute, window, opts, rs, rs);
  }

  // ---------------------------------------------------------------------
  // Deleting rows.

  /** What must come before the first surviving row: the cut retention recorded, if it
      ever made one, and otherwise nothing. */
  function RowsOpen(pruned: Option<Anchor>): Opts {
    Opts(pruned.None?, pruned)
  }

  /** The database's own verification: minted says the installation row, which
      only a first record creates, exists. */
  function VerifyRows(compute: Hasher, window: nat, rows: seq<Item>, pruned: Option<Anchor>, minted: bool): Result {
    var res := Verify(compute, window, rows, RowsOpen(pruned));
    if res.OK() && res.records == 0 && minted then res.(brk := Some(Problem(1, Gap))) else res
  }

  /** rs is what is left of c after some rows were deleted. */
  ghost predicate Remains(rs: seq<Rec>, c: seq<Rec>) {
    Ascending(rs) && forall r | r in rs :: r in c
  }

  lemma PrefixOf(rs: seq<Rec>, c: seq<Rec>)
    requires c != [] && Consecutive(c) && Remains(rs, c)
    requires forall i | 0 <= i < |rs| :: rs[i].seqNo == c[0].seqNo + i
    ensures rs <= c
  {
    forall i | 0 <= i < |rs| ensures i < |c| && rs[i] == c[i] {
      assert rs[i] in c;
    }
    if rs != [] {
      var last := |rs| - 1;
      assert rs[last] in rs;
      var k :| 0 <= k < |c| && c[k] == rs[last];
      assert k == last;
    }
  }

  lemma {:induction false} WalkConsecutive(compute: Hasher, prev: Option<Rec>, next: int, res: Result, rs: seq<Rec>)
    requires res.OK() && Walk(compute, prev, next, res, rs).OK()
    ensures forall i | 0 <= i < |rs| :: rs[i].seqNo == next + i
    ensures Walk(compute, prev, next, res, rs).records == res.records + |rs|
    decreases |rs|
  {
    if rs != [] {
      WalkConsecutive(compute, Some(rs[0]), next + 1, Tally(res, prev, rs[0]), rs[1..]);
      forall i | 0 <= i < |rs| ensures rs[i].seqNo == next + i {
        assert i > 0 ==> rs[i] == rs[1..][i - 1];
      }
    }
  }

  lemma PrefixGenuine(compute: Hasher, opts: Opts, c: seq<Rec>, k: nat)
    requires Genuine(compute, opts, c) && 0 < k <= |c|
    ensures Genuine(compute, opts, c[..k])
  {
    forall i | 0 <= i < k ensures Sound(compute, c[..k], i) {
      assert Sound(compute, c, i);
    }
  }

  /** Of everything that can be deleted from a recorded chain, pruned before or not,
      only a tail goes unnoticed: any other rows missing, all of them included, is a
      break; with none left it is a gap at number 1. */
  lemma DeletionExact(compute: Hasher, window: nat, pruned: Option<Anchor>, rs: seq<Rec>, c: seq<Rec>)
    requires window > 0 && Genuine(compute, RowsOpen(pruned), c) && Remains(rs, c)
    ensures VerifyRows(compute, window, Items(rs), pruned, true).OK() <==> rs != [] && rs <= c
    ensures rs == [] ==> VerifyRows(compute, window, Items(rs), pruned, true) == EMPTY.(brk := Some(Problem(1, Gap)))
  {
    hide Verify;
    var opts := RowsOpen(pruned);
    ScanRefined(compute, window, opts, rs);
    var res := Verify(compute, window, Items(rs), opts);
    if rs != [] {
      if rs <= c {
        PrefixGenuine(compute, opts, c, |rs|);
        assert rs == c[..|rs|];
        Genuinely(compute, window, opts, rs, rs);
      }
      if res.OK() {
        OpensAtStart(compute, opts, rs, c);
        PrefixOf(rs, c);
      }
    }
  }

  /** Where the cut or the genesis is asked for, a passed source starts where the chain
      does and leaves nothing out. */
  lemma OpensAtStart(compute: Hasher, opts: Opts, rs: seq<Rec>, c: seq<Rec>)
    requires opts.requireGenesis || opts.anchor.Some?
    requires rs != [] && c != [] && Opens(opts, c[0]) && Scan(compute, opts, rs).OK()
    ensures forall i | 0 <= i < |rs| :: rs[i].seqNo == c[0].seqNo + i
  {
    WalkConsecutive(compute, None, rs[0].seqNo, Open(opts, rs[0]), rs);
  }
}
