/** When the streaming verifier accepts: an exact, machine-free description of
    the sources it passes and of the result it then reports. */
module ChainExact {
  import opened Prelude
  import opened AuditRecord
  import opened ChainVerify

  function Items(rs: seq<Rec>): (items: seq<Item>)
    ensures |items| == |rs|
    ensures forall i | 0 <= i < |rs| :: items[i] == Line(rs[i])
  {
    seq(|rs|, i requires 0 <= i < |rs| => Line(rs[i]))
  }

  /** The first record met for each sequence number, given those met before. */
  function Add(met: map<int, Rec>, r: Rec): map<int, Rec> {
    if r.seqNo in met then met else met[r.seqNo := r]
  }

  function Collect(met: map<int, Rec>, rs: seq<Rec>): map<int, Rec>
    decreases |rs|
  {
    if rs == [] then met else Collect(Add(met, rs[0]), rs[1..])
  }

  function Firsts(rs: seq<Rec>): map<int, Rec> {
    Collect(map[], rs)
  }

  /** How many records have been consumed when the reader, having met d distinct
      sequence numbers, takes in its next line. */
  function Lag(d: nat, window: nat): nat {
    if d < window then 0 else d + 1 - window
  }

  predicate CopyOf(compute: Hasher, held: Rec, r: Rec) {
    compute(r) == Some(r.hash) && held.hash == r.hash
  }

  /** r arrives in time behind the lines that met `met`. A first copy must not be
      older than what has been consumed by then; a further copy must be genuine
      and its original still held or consumed last. */
  predicate Timely(compute: Hasher, window: nat, start: int, met: map<int, Rec>, r: Rec) {
    var lag := Lag(|met|, window);
    if r.seqNo in met then
      && CopyOf(compute, met[r.seqNo], r)
      && if lag == 0 || r.seqNo >= start + lag then met[r.seqNo].install == r.install
         else r.seqNo == start + lag - 1
    else lag == 0 || r.seqNo >= start + lag
  }

  predicate AllTimely(compute: Hasher, window: nat, start: int, met: map<int, Rec>, rs: seq<Rec>)
    decreases |rs|
  {
    rs == [] ||
    (Timely(compute, window, start, met, rs[0]) &&
     AllTimely(compute, window, start, Add(met, rs[0]), rs[1..]))
  }

  /** No sequence number is missing between the least and the greatest. */
  ghost predicate Contiguous(met: map<int, Rec>, start: int) {
    forall k :: k in met <==> start <= k < start + |met|
  }

  /** The distinct records of a contiguous source, in sequence order. */
  ghost function Ordered(met: map<int, Rec>, start: int): (c: seq<Rec>)
    requires Contiguous(met, start)
    ensures |c| == |met|
    ensures forall i | 0 <= i < |c| :: c[i] == met[start + i]
  {
    seq(|met|, i requires 0 <= i < |met| => met[start + i])
  }

  /** Record i of c hashes to what it carries and follows record i - 1. */
  predicate Sound(compute: Hasher, c: seq<Rec>, i: nat)
    requires i < |c|
  {
    && compute(c[i]) == Some(c[i].hash)
    && (i > 0 ==> c[i].install == c[i - 1].install && c[i].prevHash == c[i - 1].hash)
  }

  predicate Chained(compute: Hasher, c: seq<Rec>) {
    forall i | 0 <= i < |c| :: Sound(compute, c, i)
  }

  /** A source may open with first: at its anchor, or at genesis, or anywhere
      above 1 when neither is asked for. */
  predicate Opens(opts: Opts, first: Rec) {
    match opts.anchor
    case Some(a) => first.seqNo == a.seqNo + 1 && first.prevHash == a.hash
    case None => opts.requireGenesis || first.seqNo == 1 ==> first.seqNo == 1 && first.prevHash == GENESIS
  }

  /** Where c's clock went back. */
  function Warnings(c: seq<Rec>): seq<Problem> {
    var n := |c| - 1;
    if n <= 0 then []
    else Warnings(c[..n]) + if c[n].ts < c[n - 1].ts then [Problem(c[n].seqNo, ClockWentBack)] else []
  }

  /** The result an accepted source whose distinct records are c must report. */
  function Verdict(opts: Opts, c: seq<Rec>): Result {
    if c == [] then EMPTY
    else Result(|c|, c[0].seqNo, c[|c| - 1].seqNo, None, Warnings(c),
                c[0].seqNo != 1, opts.anchor.Some?, c[0].prevHash)
  }

  // ---------------------------------------------------------------------
  // The machine follows the description.

  /** Having met `met` and consumed j records from start, s holds exactly the
      first copies still to come. */
  ghost predicate Shape(met: map<int, Rec>, j: nat, start: int, s: State) {
    && !s.damaged && s.res.OK()
    && (forall k :: k in s.pending <==> k in met && !(start <= k < start + j))
    && (forall k | k in s.pending :: s.pending[k] == met[k])
    && (forall k | start <= k < start + j :: k in met)
    && (forall k | k in met :: met[k].seqNo == k)
    && (j == 0 ==> s.prev.None?)
    && (j > 0 ==>
          && s.next == start + j
          && (forall k | k in met :: k >= start)
          && s.prev == Some(met[start + j - 1]))
  }

  lemma ShapeSize(met: map<int, Rec>, j: nat, start: int, s: State)
    requires Shape(met, j, start, s)
    ensures |met| == j + |s.pending|
  {
    assert met.Keys == Range(start, j) + s.pending.Keys;
    assert Range(start, j) !! s.pending.Keys;
  }

  /** Reading succeeds exactly on a timely line. */
  lemma ReadTimely(compute: Hasher, window: nat, met: map<int, Rec>, j: nat, start: int, s: State)
    requires Shape(met, j, start, s) && s.rest != [] && s.rest[0].Line?
    requires |s.pending| < window && (j > 0 ==> |s.pending| + 1 >= window)
    ensures Admit(compute, s, s.rest[0].r).Refuse? <==> !Timely(compute, window, start, met, s.rest[0].r)
  {
    ShapeSize(met, j, start, s);
    assert Lag(|met|, window) == j;
  }

  /** Only a first copy is held. */
  lemma AdmitNew(compute: Hasher, met: map<int, Rec>, j: nat, start: int, s: State, r: Rec)
    requires Shape(met, j, start, s)
    ensures Admit(compute, s, r).Hold? ==> r.seqNo !in met && (j > 0 ==> r.seqNo >= start + j)
    ensures Admit(compute, s, r).Absorb? ==> r.seqNo in met
  {
  }

  lemma HoldShape(met: map<int, Rec>, j: nat, start: int, s: State, t: State, r: Rec)
    requires Shape(met, j, start, s) && r.seqNo !in met && (j > 0 ==> r.seqNo >= start + j)
    requires t.pending == s.pending[r.seqNo := r] && t.(rest := s.rest, pending := s.pending) == s
    ensures Shape(met[r.seqNo := r], j, start, t)
  {
  }

  /** Reading succeeds exactly on a timely line, and keeps the shape. */
  lemma ReadShape(compute: Hasher, window: nat, met: map<int, Rec>, j: nat, start: int, s: State)
    requires Shape(met, j, start, s) && s.rest != [] && s.rest[0].Line?
    requires |s.pending| < window && (j > 0 ==> |s.pending| + 1 >= window)
    ensures var t := Read(compute, s);
      && t.rest == s.rest[1..]
      && (t.res.OK() <==> Timely(compute, window, start, met, s.rest[0].r))
      && (t.res.OK() ==> Shape(Add(met, s.rest[0].r), j, start, t) && |t.pending| >= |s.pending|)
  {
    var r, t := s.rest[0].r, Read(compute, s);
    ReadTimely(compute, window, met, j, start, s);
    AdmitNew(compute, met, j, start, s, r);
    ReadOutcome(compute, met, j, start, s);
    hide Timely, Admit, Shape;
    if Admit(compute, s, r).Hold? {
      HoldShape(met, j, start, s, t, r);
    } else if Admit(compute, s, r).Absorb? {
      ShapeRest(met, j, start, s, t);
    }
  }

  lemma ReadOutcome(compute: Hasher, met: map<int, Rec>, j: nat, start: int, s: State)
    requires Shape(met, j, start, s) && s.rest != [] && s.rest[0].Line?
    ensures var a := Admit(compute, s, s.rest[0].r);
      && (Read(compute, s).res.OK() <==> !a.Refuse?)
      && (a.Hold? ==> s.rest[0].r.seqNo !in s.pending)
  {
  }

  lemma ShapeRest(met: map<int, Rec>, j: nat, start: int, s: State, t: State)
    requires Shape(met, j, start, s) && t.(rest := s.rest) == s
    ensures Shape(met, j, start, t)
  {
  }

  lemma TimelyStep(compute: Hasher, window: nat, start: int, met: map<int, Rec>, rs: seq<Rec>)
    requires rs != []
    ensures Collect(met, rs) == Collect(Add(met, rs[0]), rs[1..])
    ensures AllTimely(compute, window, start, met, rs) <==>
      Timely(compute, window, start, met, rs[0]) && AllTimely(compute, window, start, Add(met, rs[0]), rs[1..])
  {
    hide Timely, Add;
  }

  lemma {:induction false} FillShape(compute: Hasher, window: nat, met: map<int, Rec>, rs: seq<Rec>, j: nat, start: int, s: State)
      returns (met': map<int, Rec>, rs': seq<Rec>)
    requires window > 0 && Shape(met, j, start, s) && s.rest == Items(rs)
    requires j > 0 && rs != [] ==> |s.pending| + 1 >= window
    ensures var t := Fill(compute, window, s);
      && (t.res.OK() ==>
            && Shape(met', j, start, t) && t.rest == Items(rs')
            && (|t.pending| >= window || rs' == [])
            && Collect(met', rs') == Collect(met, rs)
            && (forall k | k in met :: k in met' && met'[k] == met[k])
            && (AllTimely(compute, window, start, met, rs) <==> AllTimely(compute, window, start, met', rs')))
      && (!t.res.OK() ==> !AllTimely(compute, window, start, met, rs))
    decreases |rs|
  {
    if |s.pending| >= window || rs == [] {
      met', rs' := met, rs;
    } else {
      ReadShape(compute, window, met, j, start, s);
      assert s.res.OK();
      FillStep(compute, window, s);
      TimelyStep(compute, window, start, met, rs);
      hide Timely, AllTimely, Collect, Read, Shape, Fill;
      var t := Read(compute, s);
      assert Items(rs)[1..] == Items(rs[1..]);
      met', rs' := Add(met, rs[0]), rs[1..];
      if t.res.OK() {
        met', rs' := FillShape(compute, window, met', rs', j, start, t);
      }
    }
  }

  // ---------------------------------------------------------------------
  // What a run concludes.

  lemma {:induction false} CollectExtends(met: map<int, Rec>, rs: seq<Rec>)
    requires forall k | k in met :: met[k].seqNo == k
    ensures var all := Collect(met, rs);
      && (forall k | k in met :: k in all && all[k] == met[k])
      && (forall k | k in all :: all[k].seqNo == k)
      && |met| <= |all|
    decreases |rs|
  {
    if rs != [] {
      CollectExtends(Add(met, rs[0]), rs[1..]);
    }
  }

  /** In a timely source nothing that has already been passed over turns up later. */
  lemma {:induction false} NothingLate(compute: Hasher, window: nat, start: int, met: map<int, Rec>, rs: seq<Rec>, k: int)
    requires AllTimely(compute, window, start, met, rs)
    requires k in Collect(met, rs) && k !in met
    ensures Lag(|met|, window) == 0 || k >= start + Lag(|met|, window)
    decreases |rs|
  {
    if rs != [] && rs[0].seqNo != k {
      NothingLate(compute, window, start, Add(met, rs[0]), rs[1..], k);
    }
  }

  ghost function Prefix(met: map<int, Rec>, start: int, j: nat): (c: seq<Rec>)
    requires forall k | start <= k < start + j :: k in met
    ensures |c| == j && forall i | 0 <= i < j :: c[i] == met[start + i]
  {
    seq(j, i requires 0 <= i < j => met[start + i])
  }

  /** The result once the records of c have been consumed. */
  function Tallied(opts: Opts, first: Rec, c: seq<Rec>): Result {
    Open(opts, first).(records := |c|, lastSeq := if c == [] then 0 else c[|c| - 1].seqNo,
                       warnings := Warnings(c))
  }

  /** s has consumed j records and may have more to read ahead. */
  ghost predicate Consumed(compute: Hasher, opts: Opts, met: map<int, Rec>, rs: seq<Rec>, j: nat, start: int, s: State) {
    && Shape(met, j, start, s) && s.rest == Items(rs)
    && (forall k | k in met :: k >= start) && start in met && s.next == start + j
    && Opens(opts, met[start])
    && s.res == Tallied(opts, met[start], Prefix(met, start, j))
    && Chained(compute, Prefix(met, start, j))
  }

  /** s stands between two turns of the main loop. */
  ghost predicate Between(compute: Hasher, window: nat, opts: Opts, met: map<int, Rec>, rs: seq<Rec>, j: nat, start: int, s: State) {
    Consumed(compute, opts, met, rs, j, start, s) && (|s.pending| >= window || rs == [])
  }

  /** What Run must decide about everything the source holds. */
  ghost predicate Whole(compute: Hasher, window: nat, met: map<int, Rec>, rs: seq<Rec>, start: int) {
    && AllTimely(compute, window, start, met, rs)
    && Contiguous(Collect(met, rs), start)
    && Chained(compute, Ordered(Collect(met, rs), start))
  }

  lemma PrefixSnoc(met: map<int, Rec>, start: int, j: nat)
    requires forall k | start <= k < start + j + 1 :: k in met
    ensures Prefix(met, start, j + 1) == Prefix(met, start, j) + [met[start + j]]
  {
  }

  lemma ChainedSnoc(compute: Hasher, c: seq<Rec>, r: Rec)
    requires Chained(compute, c)
    ensures Chained(compute, c + [r]) <==> Fault(compute, if c == [] then None else Some(c[|c| - 1]), r).None?
  {
    var c' := c + [r];
    forall i | 0 <= i < |c| ensures Sound(compute, c', i) {
      assert Sound(compute, c, i);
    }
    assert Sound(compute, c', |c|) <==> Fault(compute, if c == [] then None else Some(c[|c| - 1]), r).None?;
  }

  lemma TalliedSnoc(opts: Opts, first: Rec, c: seq<Rec>, r: Rec)
    ensures Tallied(opts, first, c + [r]) ==
            Tally(Tallied(opts, first, c), if c == [] then None else Some(c[|c| - 1]), r)
  {
    assert (c + [r])[..|c|] == c;
  }

  lemma ConsumeShape(met: map<int, Rec>, j: nat, start: int, s: State)
    requires Shape(met, j, start, s) && s.next == start + j && s.next in s.pending
    requires forall k | k in met :: k >= start
    ensures forall k | start <= k < start + j + 1 :: k in met
    ensures Shape(met, j + 1, start, Consume(s))
  {
  }

  /** The loop ends when the due record is not held: with everything consumed,
      or with a hole. */
  lemma RunEnds(compute: Hasher, window: nat, opts: Opts, met: map<int, Rec>, rs: seq<Rec>, j: nat, start: int, s: State)
    requires window > 0 && Between(compute, window, opts, met, rs, j, start, s)
    requires s.next !in s.pending
    ensures Finish(s).OK() <==> Whole(compute, window, met, rs, start)
    ensures Finish(s).OK() ==>
      Finish(s) == Tallied(opts, met[start], Ordered(Collect(met, rs), start))
  {
    var all := Collect(met, rs);
    CollectExtends(met, rs);
    ShapeSize(met, j, start, s);
    if s.pending == map[] {
      assert all == met;
      assert Ordered(all, start) == Prefix(met, start, j);
    } else {
      assert |s.pending| > 0;
      if Whole(compute, window, met, rs, start) {
        assert s.next in all;
        assert rs != [];
        NothingLate(compute, window, start, met, rs, s.next);
        assert false;
      }
    }
  }

  lemma RunFault(compute: Hasher, window: nat, opts: Opts, met: map<int, Rec>, rs: seq<Rec>, j: nat, start: int, s: State)
    requires Between(compute, window, opts, met, rs, j, start, s) && s.next in s.pending
    requires Fault(compute, s.prev, s.pending[s.next]).Some?
    ensures !Whole(compute, window, met, rs, start)
  {
    hide AllTimely, Collect, Warnings;
    var all := Collect(met, rs);
    CollectExtends(met, rs);
    if Contiguous(all, start) {
      assert j < |all| by {
        assert start + j in all;
      }
      assert !Sound(compute, Ordered(all, start), j);
    }
  }

  /** Consuming a sound record. */
  lemma ConsumeSound(compute: Hasher, opts: Opts, met: map<int, Rec>, rs: seq<Rec>, j: nat, start: int, s: State)
    requires Consumed(compute, opts, met, rs, j, start, s) && s.next in s.pending
    requires Fault(compute, s.prev, s.pending[s.next]).None?
    ensures Consumed(compute, opts, met, rs, j + 1, start, Consume(s))
  {
    ConsumeShape(met, j, start, s);
    PrefixSnoc(met, start, j);
    var pre := Prefix(met, start, j);
    assert s.prev == if j == 0 then None else Some(pre[j - 1]);
    ChainedSnoc(compute, pre, met[start + j]);
    TalliedSnoc(opts, met[start], pre, met[start + j]);
  }

  /** One turn of the main loop, when the due record is sound. */
  lemma RunTurn(compute: Hasher, window: nat, opts: Opts, met: map<int, Rec>, rs: seq<Rec>, j: nat, start: int, s: State)
      returns (met': map<int, Rec>, rs': seq<Rec>)
    requires window > 0 && j > 0 && Consumed(compute, opts, met, rs, j, start, s)
    requires rs != [] ==> |s.pending| + 1 >= window
    ensures var t := Fill(compute, window, s);
      && (t.res.OK() ==>
            && Between(compute, window, opts, met', rs', j, start, t)
            && Collect(met', rs') == Collect(met, rs)
            && (AllTimely(compute, window, start, met, rs) <==> AllTimely(compute, window, start, met', rs'))
            && start in met' && met'[start] == met[start])
      && (!t.res.OK() ==> !AllTimely(compute, window, start, met, rs))
  {
    met', rs' := FillShape(compute, window, met, rs, j, start, s);
    if Fill(compute, window, s).res.OK() {
      assert Prefix(met', start, j) == Prefix(met, start, j);
    }
  }

  lemma {:induction false} RunExact(compute: Hasher, window: nat, opts: Opts, met: map<int, Rec>, rs: seq<Rec>, j: nat, start: int, s: State)
    requires window > 0 && Between(compute, window, opts, met, rs, j, start, s)
    ensures Run(compute, window, s).OK() <==> Whole(compute, window, met, rs, start)
    ensures Run(compute, window, s).OK() ==>
      Run(compute, window, s) == Tallied(opts, met[start], Ordered(Collect(met, rs), start))
    decreases |s.rest| + |s.pending|
  {
    if s.next !in s.pending {
      RunEnds(compute, window, opts, met, rs, j, start, s);
    } else if Fault(compute, s.prev, s.pending[s.next]).Some? {
      RunFault(compute, window, opts, met, rs, j, start, s);
    } else {
      PendingShrinks(s.pending, s.next);
      ConsumeSound(compute, opts, met, rs, j, start, s);
      var met', rs' := RunTurn(compute, window, opts, met, rs, j + 1, start, Consume(s));
      var t := Fill(compute, window, Consume(s));
      if t.res.OK() {
        RunExact(compute, window, opts, met', rs', j + 1, start, t);
      }
    }
  }

  // ---------------------------------------------------------------------
  // The acceptance theorem.

  predicate Undamaged(items: seq<Item>) {
    forall i | 0 <= i < |items| :: items[i].Line?
  }

  function Lines(items: seq<Item>): (rs: seq<Rec>)
    requires Undamaged(items)
    ensures Items(rs) == items
  {
    seq(|items|, i requires 0 <= i < |items| => items[i].r)
  }

  /** The sources the verifier passes: nothing, or a contiguous sound chain whose
      every line arrives in time. */
  ghost predicate Acceptable(compute: Hasher, window: nat, opts: Opts, rs: seq<Rec>) {
    var all := Firsts(rs);
    rs == [] ||
    (all != map[] &&
     var start := Min(all.Keys);
     && Contiguous(all, start)
     && AllTimely(compute, window, start, map[], rs)
     && Opens(opts, all[start])
     && Chained(compute, Ordered(all, start)))
  }

  /** The distinct records of an acceptable source, in order. */
  ghost function Chain(rs: seq<Rec>): (c: seq<Rec>)
    requires rs == [] || (Firsts(rs) != map[] && Contiguous(Firsts(rs), Min(Firsts(rs).Keys)))
  {
    if rs == [] then [] else Ordered(Firsts(rs), Min(Firsts(rs).Keys))
  }

  lemma CollectNonEmpty(met: map<int, Rec>, rs: seq<Rec>)
    requires met != map[] || rs != []
    requires forall k | k in met :: met[k].seqNo == k
    ensures Collect(met, rs) != map[]
  {
    if rs == [] {
    } else {
      var m := Add(met, rs[0]);
      assert rs[0].seqNo in m;
      CollectExtends(m, rs[1..]);
    }
  }

  /** The first record of the first window that lacks the least sequence number:
      that number can only arrive too late. */
  lemma WrongStart(compute: Hasher, window: nat, all: map<int, Rec>, met: map<int, Rec>, rest: seq<Rec>, start: int)
    requires window > 0 && all == Collect(met, rest) && (|met| >= window || rest == [])
    requires start in all && start !in met
    ensures !AllTimely(compute, window, start, met, rest)
  {
    if AllTimely(compute, window, start, met, rest) {
      NothingLate(compute, window, start, met, rest, start);
      assert false;
    }
  }

  /** The verifier after its first look ahead. */
  lemma VerifyBegun(compute: Hasher, window: nat, all: map<int, Rec>, opts: Opts, met: map<int, Rec>, rest: seq<Rec>, s: State)
    requires window > 0 && all == Collect(met, rest) && met != map[] && all != map[]
    requires Shape(met, 0, Min(all.Keys), s) && s.rest == Items(rest)
    requires |s.pending| >= window || rest == []
    requires s.res == EMPTY && forall k | k in met :: k in all && all[k] == met[k]
    ensures s.pending == met
    ensures var t := Begin(opts, s);
      var start := Min(all.Keys);
      var good := Opens(opts, all[start]) && Whole(compute, window, met, rest, start);
      && (good ==> t.res.OK() && Run(compute, window, t) == Tallied(opts, all[start], Ordered(all, start)))
      && (!good ==> !t.res.OK() || !Run(compute, window, t).OK())
  {
    hide Run, Fill, AllTimely, Collect;
    assert forall k :: k in s.pending <==> k in met;
    assert forall k | k in met :: s.pending[k] == met[k];
    assert s.pending == met;
    var st, start := Min(met.Keys), Min(all.Keys);
    if st == start {
      BegunRight(compute, window, opts, met, rest, st, s);
    } else {
      assert start !in met;
      WrongStart(compute, window, all, met, rest, start);
      BegunRight(compute, window, opts, met, rest, st, s);
      assert start in all && start < st;
    }
  }

  lemma BegunRight(compute: Hasher, window: nat, opts: Opts, met: map<int, Rec>, rest: seq<Rec>, st: int, s: State)
    requires window > 0 && met != map[] && s.pending == met && st == Min(met.Keys)
    requires s.prev.None? && !s.damaged && s.res == EMPTY && s.rest == Items(rest)
    requires forall k | k in met :: met[k].seqNo == k
    requires |met| >= window || rest == []
    ensures var t := Begin(opts, s);
      && (t.res.OK() <==> Opens(opts, met[st]))
      && (t.res.OK() ==>
            && (Run(compute, window, t).OK() <==> Whole(compute, window, met, rest, st))
            && (Run(compute, window, t).OK() ==>
                  Run(compute, window, t) == Tallied(opts, met[st], Ordered(Collect(met, rest), st))))
  {
    hide Run, Fill, AllTimely, Collect;
    var t := Begin(opts, s);
    if t.res.OK() {
      assert Prefix(met, st, 0) == [];
      RunExact(compute, window, opts, met, rest, 0, st, t);
    }
  }

  lemma TalliedVerdict(opts: Opts, c: seq<Rec>)
    requires c != [] && Opens(opts, c[0])
    ensures Tallied(opts, c[0], c) == Verdict(opts, c)
  {
  }

  lemma AcceptableWhole(compute: Hasher, window: nat, opts: Opts, rs: seq<Rec>, met: map<int, Rec>, rest: seq<Rec>)
    requires rs != [] && Firsts(rs) != map[] && Collect(met, rest) == Firsts(rs)
    requires var start := Min(Firsts(rs).Keys);
      AllTimely(compute, window, start, map[], rs) <==> AllTimely(compute, window, start, met, rest)
    ensures var start := Min(Firsts(rs).Keys);
      Acceptable(compute, window, opts, rs) <==>
        Opens(opts, Firsts(rs)[start]) && Whole(compute, window, met, rest, start)
    ensures Acceptable(compute, window, opts, rs) ==>
      Chain(rs) != [] && Chain(rs)[0] == Firsts(rs)[Min(Firsts(rs).Keys)]
  {
  }

  /** An undamaged source is passed exactly when it is acceptable, and then the
      result depends only on the chain it holds. */
  lemma VerifyExact(compute: Hasher, window: nat, rs: seq<Rec>, opts: Opts)
    requires window > 0
    ensures Verify(compute, window, Items(rs), opts).OK() <==> Acceptable(compute, window, opts, rs)
    ensures Acceptable(compute, window, opts, rs) ==>
      Verify(compute, window, Items(rs), opts) == Verdict(opts, Chain(rs))
  {
    if rs != [] {
      var s0 := Start(Items(rs));
      var all := Firsts(rs);
      var s := Fill(compute, window, s0);
      CollectNonEmpty(map[], rs);
      var start := Min(all.Keys);
      var met, rest := FillShape(compute, window, map[], rs, 0, start, s0);
      if s.res.OK() {
        VerifyFilled(compute, window, rs, opts, met, rest, s);
      }
    }
  }

  lemma VerifyFilled(compute: Hasher, window: nat, rs: seq<Rec>, opts: Opts, met: map<int, Rec>, rest: seq<Rec>, s: State)
    requires window > 0 && rs != [] && Firsts(rs) != map[] && Collect(met, rest) == Firsts(rs)
    requires var start := Min(Firsts(rs).Keys);
      && Shape(met, 0, start, s)
      && (AllTimely(compute, window, start, map[], rs) <==> AllTimely(compute, window, start, met, rest))
    requires s == Fill(compute, window, Start(Items(rs))) && s.res == EMPTY
    requires s.rest == Items(rest) && (|s.pending| >= window || rest == [])
    ensures Verify(compute, window, Items(rs), opts).OK() <==> Acceptable(compute, window, opts, rs)
    ensures Acceptable(compute, window, opts, rs) ==>
      Verify(compute, window, Items(rs), opts) == Verdict(opts, Chain(rs))
  {
    var all := Firsts(rs);
    CollectExtends(met, rest);
    ShapeSize(met, 0, Min(all.Keys), s);
    assert met != map[];
    VerifyBegun(compute, window, all, opts, met, rest, s);
    AcceptableWhole(compute, window, opts, rs, met, rest);
    assert Verify(compute, window, Items(rs), opts) ==
           var t := Begin(opts, s);
           if t.res.OK() then Run(compute, window, t) else t.res;
    if Acceptable(compute, window, opts, rs) {
      TalliedVerdict(opts, Chain(rs));
    }
  }
}
