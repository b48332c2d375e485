/** What a break says: which kind, at which number, and what was in order before it. */
module ChainDiagnosis {
  import opened Prelude
  import opened AuditRecord
  import opened ChainVerify
  import opened ChainExact
  import opened ChainLaws
  import opened ChainDisorder
  import opened ChainScan
  import opened ChainFragments

  // ---------------------------------------------------------------------
  // The first record out of order.

  /** The first k records are consecutive, hash to what they carry and link up. */
  ghost predicate Sane(compute: Hasher, c: seq<Rec>, k: nat) {
    k <= |c| && forall i | 0 <= i < k :: c[i].seqNo == c[0].seqNo + i && Sound(compute, c, i)
  }

  predicate InTurn(c: seq<Rec>, k: nat)
    requires k < |c|
  {
    k > 0 ==> c[k].seqNo == c[k - 1].seqNo + 1
  }

  predicate SameInstall(c: seq<Rec>, k: nat)
    requires k < |c|
  {
    k > 0 ==> c[k].install == c[k - 1].install
  }

  predicate Links(c: seq<Rec>, k: nat)
    requires k < |c|
  {
    k > 0 ==> c[k].prevHash == c[k - 1].hash
  }

  /** p is what is wrong with record k, in the order in which it is looked for. */
  predicate Diagnosed(compute: Hasher, c: seq<Rec>, k: nat, p: Problem)
    requires k < |c|
  {
    match p.kind
    case Gap => !InTurn(c, k) && p.seqNo == c[k - 1].seqNo + 1
    case MixedInstalls => InTurn(c, k) && !SameInstall(c, k) && p.seqNo == c[k].seqNo
    case Broken => InTurn(c, k) && SameInstall(c, k) && !Links(c, k) && p.seqNo == c[k].seqNo
    case Unreadable =>
      InTurn(c, k) && SameInstall(c, k) && Links(c, k) && compute(c[k]).None? && p.seqNo == c[k].seqNo
    case Altered =>
      && InTurn(c, k) && SameInstall(c, k) && Links(c, k)
      && compute(c[k]).Some? && compute(c[k]).value != c[k].hash && p.seqNo == c[k].seqNo
    case _ => false
  }

  /** The result once the records of c are consumed, the first of which is first. */
  function Sofar(opts: Opts, first: Rec, c: seq<Rec>): Result {
    Result(|c|, first.seqNo, if c == [] then 0 else c[|c| - 1].seqNo, None, Warnings(c),
           first.seqNo != 1, opts.anchor.Some?, first.prevHash)
  }

  lemma {:induction false} WalkSane(compute: Hasher, opts: Opts, c: seq<Rec>, k: nat)
    requires c != [] && Opens(opts, c[0]) && Sane(compute, c, k)
    ensures Open(opts, c[0]).OK()
    ensures Walk(compute, None, c[0].seqNo, Open(opts, c[0]), c) ==
      Walk(compute, if k == 0 then None else Some(c[k - 1]), c[0].seqNo + k, Sofar(opts, c[0], c[..k]), c[k..])
  {
    if k == 0 {
      assert c[..0] == [] && c[0..] == c;
    } else {
      WalkSane(compute, opts, c, k - 1);
      hide Walk, Warnings;
      assert Sound(compute, c, k - 1);
      var prev := if k == 1 then None else Some(c[k - 2]);
      assert c[k - 1..][1..] == c[k..];
      WalkStep(compute, prev, c[0].seqNo + k - 1, Sofar(opts, c[0], c[..k - 1]), c[k - 1..]);
      SofarSnoc(opts, c, k - 1);
    }
  }

  lemma SofarSnoc(opts: Opts, c: seq<Rec>, k: nat)
    requires k < |c|
    ensures Sofar(opts, c[0], c[..k + 1]) ==
      Tally(Sofar(opts, c[0], c[..k]), if k == 0 then None else Some(c[k - 1]), c[k])
  {
    assert c[..k + 1][..k] == c[..k];
  }

  lemma BreakAt(compute: Hasher, c: seq<Rec>, k: nat, res: Result)
    requires k < |c| && res.OK() && !(InTurn(c, k) && Sound(compute, c, k))
    ensures var prev := if k == 0 then None else Some(c[k - 1]);
      var next := if k == 0 then c[0].seqNo else c[k - 1].seqNo + 1;
      var end := Walk(compute, prev, next, res, c[k..]);
      && end.brk.Some? && end.(brk := None) == res && forall p :: end.brk == Some(p) <==> Diagnosed(compute, c, k, p)
  {
    assert c[k..][0] == c[k];
  }

  /** Whatever order inside the window the records come in, a break is about the first
      one, by number, that is out of order, and says what is wrong with it; everything
      else in the result is as after the records before it. */
  lemma Diagnosis(compute: Hasher, window: nat, opts: Opts, rs: seq<Rec>, c: seq<Rec>, k: nat)
    requires window > 0 && Arranged(window, rs, c) && k < |c| && Opens(opts, c[0])
    requires Sane(compute, c, k) && !(InTurn(c, k) && Sound(compute, c, k))
    ensures var res := Verify(compute, window, Items(rs), opts);
      && res.brk.Some? && res.(brk := None) == Sofar(opts, c[0], c[..k])
      && forall p :: res.brk == Some(p) <==> Diagnosed(compute, c, k, p)
  {
    hide Verify, Arranged, Open, Walk, Diagnosed, InTurn, Sound, Warnings;
    ArrangedScan(compute, window, opts, rs, c);
    WalkSane(compute, opts, c, k);
    BreakAt(compute, c, k, Sofar(opts, c[0], c[..k]));
    assert k > 0 ==> c[k - 1].seqNo == c[0].seqNo + (k - 1);
  }

  /** A source that may not open as it does is not read on. */
  lemma NotOpened(compute: Hasher, window: nat, opts: Opts, rs: seq<Rec>, c: seq<Rec>)
    requires window > 0 && Arranged(window, rs, c) && c != [] && !Opens(opts, c[0])
    ensures Verify(compute, window, Items(rs), opts) ==
      EMPTY.(brk := Some(Problem(c[0].seqNo, if opts.anchor.Some? then NotAnchored else NotGenesis)))
  {
    hide Verify, Arranged;
    ArrangedScan(compute, window, opts, rs, c);
  }

  /** With nothing out of order the result is that of all the records. */
  lemma AllSane(compute: Hasher, window: nat, opts: Opts, rs: seq<Rec>, c: seq<Rec>)
    requires window > 0 && Arranged(window, rs, c) && c != [] && Opens(opts, c[0]) && Sane(compute, c, |c|)
    ensures Verify(compute, window, Items(rs), opts) == Sofar(opts, c[0], c)
  {
    hide Verify, Arranged, Open;
    ArrangedScan(compute, window, opts, rs, c);
    WalkSane(compute, opts, c, |c|);
    assert c[..|c|] == c && c[|c|..] == [];
  }

  // ---------------------------------------------------------------------
  // Up to whatever comes behind a sound chain.

  ghost predicate Stands(c: seq<Rec>, j: nat, s: State)
    requires c != [] && j <= |c|
  {
    s.prev == (if j == 0 then None else Some(c[j - 1])) && s.next == c[0].seqNo + j
  }

  lemma SoundGoes(compute: Hasher, c: seq<Rec>, j: nat, s: State)
    requires j < |c| && Chained(compute, c) && Stands(c, j, s)
    ensures Fault(compute, s.prev, c[j]).None?
  {
    assert Sound(compute, c, j);
  }

  /** The machine consumes the chain until there is room to look behind it. */
  lemma {:induction false} RunReach(compute: Hasher, window: nat, c: seq<Rec>, j: nat, u: seq<Rec>, tail: seq<Item>, s: State)
      returns (t: State)
    requires window > 0 && j < |c| && Chained(compute, c) && Consecutive(c) && Stands(c, j, s)
    requires Around(window, c[j..], u, tail, s) && |s.pending| == window && window + |u| == |c| - j
    ensures s.res.OK() && t.res.OK() && t.damaged == s.damaged
    ensures var i := |c| + 1 - window;
      i >= 0 && i <= |c| && Stands(c, i, t) && Around(window, c[i..], [], tail, t) && |t.pending| == window - 1
    ensures Run(compute, window, s) ==
      var z := Fill(compute, window, t); if z.res.OK() then Run(compute, window, z) else z.res
    decreases |c| - j
  {
    hide Around, Run, Fill, Fault, Tally, Chained;
    AroundOK(window, c[j..], u, tail, s);
    FirstHeld(window, c[j..], u, tail, s);
    SoundGoes(compute, c, j, s);
    var u', v := TurnAround(compute, window, c[j..], u, tail, s);
    assert c[j..][1..] == c[j + 1..];
    AroundOK(window, c[j + 1..], u', tail, v);
    if |v.pending| >= window {
      FillEnds(compute, window, v);
      t := RunReach(compute, window, c, j + 1, u', tail, v);
    } else {
      assert u' == [];
      t := v;
    }
  }

  lemma ArrangedSize(window: nat, rs: seq<Rec>, c: seq<Rec>)
    requires Arranged(window, rs, c)
    ensures |rs| == |c|
  {
    DistinctShuffles(rs, c);
    ShuffleMembers(rs, c);
  }

  /** The machine as it first looks behind a sound chain: how far it has consumed it, and
      what the verdict then depends on. */
  lemma TailReached(compute: Hasher, window: nat, opts: Opts, rs: seq<Rec>, c: seq<Rec>, tail: seq<Item>) returns (t: State)
    requires window > 0 && Genuine(compute, opts, c) && Arranged(window, rs, c)
    ensures var i := Lag(|c|, window);
      && i <= |c| && Around(window, c[i..], [], tail, t) && |t.pending| == |c| - i < window && !t.damaged && t.res.OK()
      && (i > 0 ==> Stands(c, i, t)) && (i == 0 ==> t == State(tail, t.pending, None, 0, false, EMPTY))
      && var z := Fill(compute, window, t);
      && (!z.res.OK() ==> Verify(compute, window, Items(rs) + tail, opts) == z.res)
      && (i > 0 && z.res.OK() ==> Verify(compute, window, Items(rs) + tail, opts) == Run(compute, window, z))
      && (i == 0 ==> Fill(compute, window, Start(Items(rs) + tail)) == z)
  {
    hide Around, Run, Fill, Arranged, Open, Chained;
    StartAround(window, rs, c, tail);
    ArrangedSize(window, rs, c);
    var u, s := FillAround(compute, window, c, rs, tail, Start(Items(rs) + tail));
    AroundOK(window, c, u, tail, s);
    if |s.pending| < window {
      assert c[0..] == c;
      t := s;
      RestIs(window, c, tail, t);
    } else {
      FillEnds(compute, window, s);
      BeginAround(opts, window, c, u, tail, s);
      OpensOK(opts, c[0]);
      assert c[0..] == c;
      t := RunReach(compute, window, c, 0, u, tail, Begin(opts, s));
    }
  }

  lemma RestIs(window: nat, todo: seq<Rec>, tail: seq<Item>, s: State)
    requires Around(window, todo, [], tail, s)
    ensures s.rest == tail
  {
    assert Items([]) + tail == tail;
  }

  lemma OpensOK(opts: Opts, first: Rec)
    requires Opens(opts, first)
    ensures Open(opts, first).OK()
  {
  }

  // ---------------------------------------------------------------------
  // A second line.

  /** What is wrong with a line r behind a chain of which the first j records have been
      consumed, told by the record already there. */
  predicate SecondDiagnosed(compute: Hasher, c: seq<Rec>, j: nat, r: Rec, kind: Kind)
    requires c != [] && j <= |c|
  {
    var i := r.seqNo - c[0].seqNo;
    if j <= i < |c| then
      match kind
      case MixedInstalls => r.install != c[i].install
      case Unreadable => r.install == c[i].install && compute(r).None?
      case Altered => r.install == c[i].install && compute(r).Some? && compute(r).value != r.hash
      case OutOfOrder => r.install == c[i].install && compute(r) == Some(r.hash) && r.hash != c[i].hash
      case _ => false
    else if 0 <= i == j - 1 then
      match kind
      case Unreadable => compute(r).None?
      case Altered => compute(r).Some? && compute(r).value != r.hash
      case OutOfOrder => compute(r) == Some(r.hash) && r.hash != c[i].hash
      case _ => false
    else i < j && j > 0 && kind == OutOfOrder
  }

  lemma AdmitBehind(compute: Hasher, window: nat, c: seq<Rec>, j: nat, tail: seq<Item>, s: State, r: Rec)
    requires c != [] && j <= |c| && Consecutive(c) && Around(window, c[j..], [], tail, s)
    requires (j > 0 ==> Stands(c, j, s)) && (j == 0 ==> s.prev.None?)
    ensures forall kind :: Admit(compute, s, r) == Refuse(Problem(r.seqNo, kind)) <==> SecondDiagnosed(compute, c, j, r, kind)
  {
    hide Around;
    HeldBehind(window, c, j, tail, s);
    var i := r.seqNo - c[0].seqNo;
    assert r.seqNo in s.pending <==> j <= i < |c|;
    assert r.seqNo in s.pending ==> s.pending[r.seqNo] == c[i];
    if j > 0 {
      assert c[j - 1].seqNo == c[0].seqNo + j - 1;
    }
    hide Consecutive;
  }

  lemma HoldsAll(window: nat, todo: seq<Rec>, tail: seq<Item>, s: State)
    requires Around(window, todo, [], tail, s)
    ensures forall k | k in s.pending :: s.pending[k].seqNo == k && s.pending[k] in todo
    ensures forall r | r in todo :: Holds(s, r)
  {
  }

  lemma HeldBehind(window: nat, c: seq<Rec>, j: nat, tail: seq<Item>, s: State)
    requires c != [] && j <= |c| && Consecutive(c) && Around(window, c[j..], [], tail, s)
    ensures forall q :: q in s.pending <==> j <= q - c[0].seqNo < |c|
    ensures forall q | q in s.pending :: s.pending[q] == c[q - c[0].seqNo]
  {
    hide Around;
    HoldsAll(window, c[j..], tail, s);
    forall q ensures (q in s.pending <==> j <= q - c[0].seqNo < |c|) && (q in s.pending ==> s.pending[q] == c[q - c[0].seqNo]) {
      if q in s.pending {
        var i :| 0 <= i < |c[j..]| && c[j..][i] == s.pending[q];
        assert c[j..][i] == c[j + i] && c[j + i].seqNo == c[0].seqNo + (j + i);
      }
      if j <= q - c[0].seqNo < |c| {
        var r := c[q - c[0].seqNo];
        assert r.seqNo == q && c[j..][q - c[0].seqNo - j] == r;
        assert r in c[j..];
      }
    }
  }

  /** A second line for a number of a sound chain: what is said of it, whatever follows,
      by the record it claims to repeat and by how far the chain has been consumed when
      the line is read. */
  lemma SecondLine(compute: Hasher, window: nat, opts: Opts, rs: seq<Rec>, c: seq<Rec>, r: Rec, rest: seq<Item>, kind: Kind)
    requires window > 0 && Genuine(compute, opts, c) && Arranged(window, rs, c)
    requires SecondDiagnosed(compute, c, Lag(|c|, window), r, kind)
    ensures Verify(compute, window, Items(rs) + ([Line(r)] + rest), opts).brk == Some(Problem(r.seqNo, kind))
  {
    hide Verify, Arranged, Around, Fill, Run, Genuine, Admit, SecondDiagnosed;
    var tail := [Line(r)] + rest;
    GenuineParts(compute, opts, c);
    var t := TailReached(compute, window, opts, rs, c, tail);
    var i := Lag(|c|, window);
    AdmitBehind(compute, window, c, i, tail, t, r);
    RestIs(window, c[i..], tail, t);
    RefusedFill(compute, window, t, r);
  }

  lemma GenuineParts(compute: Hasher, opts: Opts, c: seq<Rec>)
    requires Genuine(compute, opts, c)
    ensures c != [] && Consecutive(c) && Chained(compute, c) && Opens(opts, c[0])
  {
  }

  lemma RefusedFill(compute: Hasher, window: nat, s: State, r: Rec)
    requires s.res.OK() && |s.pending| < window && s.rest != [] && s.rest[0] == Line(r) && Admit(compute, s, r).Refuse?
    ensures var z := Fill(compute, window, s); !z.res.OK() && z.res.brk == Some(Admit(compute, s, r).p)
  {
    hide Admit;
    FillStep(compute, window, s);
  }

  lemma SecondTimely(compute: Hasher, window: nat, rs: seq<Rec>, c: seq<Rec>, r: Rec)
    requires window > 0 && c != [] && Consecutive(c) && SameRecords(rs, c) && 0 <= r.seqNo - c[0].seqNo < |c|
    requires forall kind :: !SecondDiagnosed(compute, c, Lag(|c|, window), r, kind)
    ensures r.seqNo in Firsts(rs) && Timely(compute, window, c[0].seqNo, Firsts(rs), r)
  {
    hide Consecutive, SameRecords, Firsts;
    var i, j := r.seqNo - c[0].seqNo, Lag(|c|, window);
    KeysOf(rs, c);
    ValueOf(rs, c, i);
    assert !SecondDiagnosed(compute, c, j, r, MixedInstalls) && !SecondDiagnosed(compute, c, j, r, Unreadable);
    assert !SecondDiagnosed(compute, c, j, r, Altered) && !SecondDiagnosed(compute, c, j, r, OutOfOrder);
  }

  lemma GenuineSane(compute: Hasher, opts: Opts, c: seq<Rec>)
    requires Genuine(compute, opts, c)
    ensures Sane(compute, c, |c|)
  {
  }

  /** And a line for a number of the chain of which nothing is said is absorbed. */
  lemma SecondAbsorbed(compute: Hasher, window: nat, opts: Opts, rs: seq<Rec>, c: seq<Rec>, r: Rec)
    requires window > 0 && Genuine(compute, opts, c) && Arranged(window, rs, c)
    requires 0 <= r.seqNo - c[0].seqNo < |c|
    requires forall kind :: !SecondDiagnosed(compute, c, Lag(|c|, window), r, kind)
    ensures Verify(compute, window, Items(rs + [r]), opts) == Verify(compute, window, Items(rs), opts)
    ensures Verify(compute, window, Items(rs), opts).OK()
  {
    hide Verify, AllTimely, Timely, Collect, SecondDiagnosed, Chained;
    GenuineSane(compute, opts, c);
    AllSane(compute, window, opts, rs, c);
    VerifyExact(compute, window, rs, opts);
    ArrangedSize(window, rs, c);
    var start := AcceptableStarts(compute, window, opts, rs);
    ChainOf(rs, c);
    MinUnique(Firsts(rs), start);
    SecondTimely(compute, window, rs, c, r);
    CollectConcat(map[], rs, [r]);
    OneMore(compute, window, start, Firsts(rs), r);
    TimelyConcat(compute, window, start, map[], rs, [r]);
    AcceptableFrom(compute, window, opts, rs + [r], start);
    VerifyExact(compute, window, rs + [r], opts);
  }

  lemma OneMore(compute: Hasher, window: nat, start: int, met: map<int, Rec>, r: Rec)
    requires r.seqNo in met
    ensures Collect(met, [r]) == met
    ensures AllTimely(compute, window, start, met, [r]) <==> Timely(compute, window, start, met, r)
  {
    hide Timely;
    assert [r][1..] == [];
  }

  // ---------------------------------------------------------------------
  // Damage.

  lemma JoinAround(window: nat, c: seq<Rec>, b: seq<Rec>, i: nat, t: State, z: State)
    requires c != [] && i <= |c| && Consecutive(c + b) && window > 0
    requires Around(window, c[i..], [], [Damage] + Items(b), t) && |t.pending| == |c| - i
    requires z.rest == Items(b) && z.res.OK() && z.pending == t.pending && (z.prev.Some? ==> z.next == c[0].seqNo + i)
    ensures Around(window, (c + b)[i..], b, [], z)
  {
    hide Around, InStep, Ascending, Distinct, Consecutive;
    HoldsAll(window, c[i..], [Damage] + Items(b), t);
    var todo := (c + b)[i..];
    JoinNumbers(c, b, i);
    JoinInStep(window, |z.pending|, todo, b, |c| - i, c[0].seqNo + i);
    JoinOrder(todo, b, |c| - i, c[0].seqNo + i);
    JoinParts(c[i..], b, todo, c[0].seqNo + i, z.pending);
    AroundOf(window, todo, b, z);
  }

  lemma JoinNumbers(c: seq<Rec>, b: seq<Rec>, i: nat)
    requires c != [] && i <= |c| && Consecutive(c + b)
    ensures var todo := (c + b)[i..];
      && todo == c[i..] + b && (forall k | 0 <= k < |todo| :: todo[k].seqNo == c[0].seqNo + i + k)
    ensures forall k | 0 <= k < |b| :: b[k].seqNo == c[0].seqNo + i + (|c| - i) + k
  {
    var todo := (c + b)[i..];
    assert forall k | 0 <= k < |todo| :: todo[k] == (c + b)[i + k];
    assert forall k | 0 <= k < |b| :: b[k] == (c + b)[|c| + k];
  }

  lemma JoinOrder(todo: seq<Rec>, b: seq<Rec>, m: nat, first: int)
    requires forall k | 0 <= k < |todo| :: todo[k].seqNo == first + k
    requires forall k | 0 <= k < |b| :: b[k].seqNo == first + m + k
    ensures Ascending(todo) && Distinct(b) && forall r | r in todo :: r.seqNo >= first
  {
  }

  lemma JoinParts(a: seq<Rec>, b: seq<Rec>, todo: seq<Rec>, first: int, pending: map<int, Rec>)
    requires todo == a + b && forall k | 0 <= k < |todo| :: todo[k].seqNo == first + k
    requires forall k | k in pending :: pending[k].seqNo == k && pending[k] in a
    ensures forall r | r in b :: r in todo && r.seqNo !in pending
    ensures forall r | r in todo :: r in a || r in b
    ensures forall k | k in pending :: pending[k] in todo
  {
    forall r | r in b ensures r.seqNo !in pending {
      var k :| 0 <= k < |b| && b[k] == r;
      assert todo[|a| + k] == r;
      forall m | 0 <= m < |a| ensures a[m].seqNo != r.seqNo {
        assert todo[m] == a[m];
      }
    }
  }

  lemma JoinInStep(window: nat, held: nat, todo: seq<Rec>, b: seq<Rec>, m: nat, first: int)
    requires window > 0 && held <= m && |todo| == m + |b|
    requires forall k | 0 <= k < |todo| :: todo[k].seqNo == first + k
    requires forall k | 0 <= k < |b| :: b[k].seqNo == first + m + k
    ensures InStep(window, held, todo, b)
  {
  }

  lemma AroundOf(window: nat, todo: seq<Rec>, u: seq<Rec>, s: State)
    requires Ascending(todo) && Distinct(u) && s.rest == Items(u) && s.res.OK()
    requires forall k | k in s.pending :: s.pending[k].seqNo == k && s.pending[k] in todo
    requires forall r | r in u :: r in todo && r.seqNo !in s.pending
    requires forall r | r in todo :: r in u || Holds(s, r)
    requires InStep(window, |s.pending|, todo, u)
    requires s.prev.Some? ==> forall r | r in todo :: r.seqNo >= s.next
    ensures Around(window, todo, u, [], s)
  {
    assert Items(u) + [] == Items(u);
  }

  /** Once damage has been met, what is left of the chain is consumed and the damage
      reported behind it. */
  lemma {:induction false} DamagedRun(compute: Hasher, window: nat, c: seq<Rec>, j: nat, u: seq<Rec>, s: State)
    requires window > 0 && c != [] && j <= |c| && Chained(compute, c) && Consecutive(c) && Stands(c, j, s) && s.damaged
    requires Around(window, c[j..], u, [], s) && |s.pending| + |u| == |c| - j && (j < |c| ==> Holds(s, c[j]))
    ensures s.res.OK() && Run(compute, window, s).brk == Some(Problem(c[0].seqNo + |c|, Unreadable))
    decreases |c| - j
  {
    hide Around, Run, Fill, Fault, Tally, Chained, Consecutive;
    AroundOK(window, c[j..], u, [], s);
    if j == |c| {
      assert s.pending == map[];
      RunStops(compute, window, s);
    } else {
      SoundGoes(compute, c, j, s);
      DueIs(c, j);
      var u', t := TurnAround(compute, window, c[j..], u, [], s);
      assert c[j..][1..] == c[j + 1..];
      AroundOK(window, c[j + 1..], u', [], t);
      RestEnds(window, c[j + 1..], u', t);
      FillEnds(compute, window, t);
      if j + 1 < |c| {
        FirstHeld(window, c[j + 1..], u', [], t);
      }
      DamagedRun(compute, window, c, j + 1, u', t);
    }
  }

  lemma DueIs(c: seq<Rec>, j: nat)
    requires j < |c| && Consecutive(c)
    ensures c[j].seqNo == c[0].seqNo + j && c[j..][0] == c[j]
  {
  }

  lemma DamageRead(compute: Hasher, window: nat, c: seq<Rec>, b: seq<Rec>, i: nat, t: State) returns (z: State)
    requires i <= |c| && Around(window, c[i..], [], [Damage] + Items(b), t) && |t.pending| < window
    ensures z == Fill(compute, window, t) && z == t.(rest := Items(b), damaged := true) && z.res.OK()
  {
    RestIs(window, c[i..], [Damage] + Items(b), t);
    assert ([Damage] + Items(b))[1..] == Items(b);
    z := Fill(compute, window, t);
  }

  /** A line that cannot be read, behind a sound chain and before what continues it: the
      damage is reported at the first number the source then fails to supply, which is
      behind all of it, except that a look-ahead of one record stops at the damage. */
  lemma DamagedAt(compute: Hasher, window: nat, opts: Opts, rs: seq<Rec>, c: seq<Rec>, b: seq<Rec>)
    requires window > 0 && c != [] && Genuine(compute, opts, c) && Genuine(compute, opts, c + b) && Arranged(window, rs, c)
    ensures Verify(compute, window, Items(rs) + ([Damage] + Items(b)), opts).brk ==
      Some(Problem(c[0].seqNo + |c| + if window == 1 then 0 else |b|, Unreadable))
  {
    hide Verify, Arranged, Around, Fill, Run, Genuine, Chained, Consecutive;
    var all, i, tail := c + b, Lag(|c|, window), [Damage] + Items(b);
    GenuineParts(compute, opts, c);
    GenuineParts(compute, opts, all);
    assert all[0] == c[0];
    var t := TailReached(compute, window, opts, rs, c, tail);
    var z := DamageRead(compute, window, c, b, i, t);
    if i == 0 {
      DamagedStart(compute, window, opts, rs, c, b, t, z);
    } else if i == |c| {
      RunStops(compute, window, z);
      assert z.pending == map[];
    } else {
      JoinAround(window, c, b, i, t, z);
      StandsOn(c, b, i, z);
      HoldsAt(window, c, i, tail, t);
      DamagedRun(compute, window, all, i, b, z);
    }
  }

  lemma StandsOn(c: seq<Rec>, b: seq<Rec>, i: nat, s: State)
    requires c != [] && i <= |c| && Stands(c, i, s)
    ensures Stands(c + b, i, s)
  {
  }

  lemma HoldsAt(window: nat, c: seq<Rec>, i: nat, tail: seq<Item>, t: State)
    requires i < |c| && Around(window, c[i..], [], tail, t)
    ensures Holds(t, c[i])
  {
    hide Around;
    HoldsAll(window, c[i..], tail, t);
    assert c[i..][0] == c[i];
  }

  lemma DamagedStart(compute: Hasher, window: nat, opts: Opts, rs: seq<Rec>, c: seq<Rec>, b: seq<Rec>, t: State, z: State)
    requires window > 0 && c != [] && Genuine(compute, opts, c) && Genuine(compute, opts, c + b)
    requires Around(window, c[0..], [], [Damage] + Items(b), t) && |t.pending| == |c| < window
    requires t.prev.None? && t.res == EMPTY && z == t.(rest := Items(b), damaged := true)
    requires z == Fill(compute, window, Start(Items(rs) + ([Damage] + Items(b))))
    ensures Verify(compute, window, Items(rs) + ([Damage] + Items(b)), opts).brk ==
      Some(Problem(c[0].seqNo + |c| + |b|, Unreadable))
  {
    hide Around, Fill, Run, Genuine, Chained, Consecutive, Open;
    var all, tail := c + b, [Damage] + Items(b);
    GenuineParts(compute, opts, c);
    GenuineParts(compute, opts, all);
    assert c[0..] == c && all[0..] == all && all[0] == c[0];
    BeginAround(opts, window, c, [], tail, t);
    OpensOK(opts, c[0]);
    var v, w := Begin(opts, t), Begin(opts, z);
    assert w == v.(rest := Items(b), damaged := true);
    JoinAround(window, c, b, 0, v, w);
    HoldsAt(window, c, 0, tail, v);
    DamagedRun(compute, window, all, 0, b, w);
  }

  /** With nothing readable before it damage is reported at number 1. */
  lemma DamagedFirst(compute: Hasher, window: nat, opts: Opts, rest: seq<Item>)
    requires window > 0
    ensures Verify(compute, window, [Damage] + rest, opts) == EMPTY.(brk := Some(Problem(1, Unreadable)))
  {
  }
}
