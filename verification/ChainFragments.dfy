/** Fragments: joining a source to the record it must follow, before or after the
    fact, and what one head says about all the history before it. */
module ChainFragments {
  import opened Prelude
  import opened AuditRecord
  import opened ChainVerify
  import opened ChainExact
  import opened ChainLaws
  import opened ChainDisorder

  // ---------------------------------------------------------------------
  // One source after another.

  lemma {:induction false} CollectConcat(met: map<int, Rec>, a: seq<Rec>, b: seq<Rec>)
    ensures Collect(met, a + b) == Collect(Collect(met, a), b)
    decreases |a|
  {
    if a == [] {
      assert a + b == b;
    } else {
      assert (a + b)[1..] == a[1..] + b;
      CollectConcat(Add(met, a[0]), a[1..], b);
    }
  }

  lemma {:induction false} TimelyConcat(compute: Hasher, window: nat, start: int, met: map<int, Rec>, a: seq<Rec>, b: seq<Rec>)
    ensures AllTimely(compute, window, start, met, a + b) <==>
      AllTimely(compute, window, start, met, a) && AllTimely(compute, window, start, Collect(met, a), b)
    decreases |a|
  {
    if a == [] {
      assert a + b == b;
    } else {
      assert (a + b)[1..] == a[1..] + b;
      TimelyConcat(compute, window, start, Add(met, a[0]), a[1..], b);
    }
  }

  /** Joined is what is met after base and then m, with m wholly above base. */
  ghost predicate Joins(base: map<int, Rec>, m: map<int, Rec>, joined: map<int, Rec>, edge: int) {
    && (forall k | k in base :: k < edge)
    && (forall k | k in m :: k >= edge)
    && (forall k :: k in joined <==> k in base || k in m)
    && (forall k | k in base :: joined[k] == base[k])
    && (forall k | k in m :: joined[k] == m[k])
    && |joined| == |base| + |m|
  }

  lemma JoinsAdd(base: map<int, Rec>, m: map<int, Rec>, joined: map<int, Rec>, edge: int, r: Rec)
    requires Joins(base, m, joined, edge) && r.seqNo >= edge
    ensures Joins(base, Add(m, r), Add(joined, r), edge)
  {
  }

  lemma TimelyShiftOne(compute: Hasher, window: nat, start: int,
      base: map<int, Rec>, m: map<int, Rec>, joined: map<int, Rec>, r: Rec)
    requires Joins(base, m, joined, start + |base|) && r.seqNo >= start + |base|
    ensures Timely(compute, window, start, joined, r) <==> Timely(compute, window, start + |base|, m, r)
  {
  }

  ghost predicate Above(b: seq<Rec>, edge: int) {
    forall r | r in b :: r.seqNo >= edge
  }

  lemma {:induction false} JoinsCollect(base: map<int, Rec>, m: map<int, Rec>, joined: map<int, Rec>, edge: int, b: seq<Rec>)
    requires Joins(base, m, joined, edge) && Above(b, edge)
    ensures Joins(base, Collect(m, b), Collect(joined, b), edge)
    decreases |b|
  {
    if b != [] {
      assert b[0] in b;
      JoinsAdd(base, m, joined, edge, b[0]);
      JoinsCollect(base, Add(m, b[0]), Add(joined, b[0]), edge, b[1..]);
    }
  }

  lemma {:induction false} TimelyShift(compute: Hasher, window: nat, start: int,
      base: map<int, Rec>, m: map<int, Rec>, joined: map<int, Rec>, b: seq<Rec>)
    requires Joins(base, m, joined, start + |base|) && Above(b, start + |base|)
    ensures AllTimely(compute, window, start, joined, b) <==>
            AllTimely(compute, window, start + |base|, m, b)
    decreases |b|
  {
    if b != [] {
      assert b[0] in b;
      TimelyShiftOne(compute, window, start, base, m, joined, b[0]);
      JoinsAdd(base, m, joined, start + |base|, b[0]);
      TimelyShift(compute, window, start, base, Add(m, b[0]), Add(joined, b[0]), b[1..]);
    }
  }

  lemma ContiguousJoin(base: map<int, Rec>, m: map<int, Rec>, joined: map<int, Rec>, start: int)
    requires Joins(base, m, joined, start + |base|) && Contiguous(base, start)
    ensures Contiguous(joined, start) <==> Contiguous(m, start + |base|)
  {
    if Contiguous(joined, start) {
      forall k ensures k in m <==> start + |base| <= k < start + |base| + |m| {
        assert k in joined <==> k in base || k in m;
      }
    }
    if Contiguous(m, start + |base|) {
      forall k ensures k in joined <==> start <= k < start + |joined| {
        assert k in joined <==> k in base || k in m;
      }
    }
  }

  lemma OrderedJoin(base: map<int, Rec>, m: map<int, Rec>, joined: map<int, Rec>, start: int)
    requires Joins(base, m, joined, start + |base|)
    requires Contiguous(base, start) && Contiguous(m, start + |base|) && Contiguous(joined, start)
    ensures Ordered(joined, start) == Ordered(base, start) + Ordered(m, start + |base|)
  {
  }

  lemma ChainedConcat(compute: Hasher, a: seq<Rec>, b: seq<Rec>)
    requires a != [] && b != []
    ensures Chained(compute, a + b) <==>
      Chained(compute, a) && Chained(compute, b) &&
      b[0].install == a[|a| - 1].install && b[0].prevHash == a[|a| - 1].hash
  {
    var c := a + b;
    forall i | 0 <= i < |a| ensures Sound(compute, c, i) <==> Sound(compute, a, i) {
    }
    forall i | 0 < i < |b| ensures Sound(compute, c, |a| + i) <==> Sound(compute, b, i) {
    }
    assert Sound(compute, c, |a|) <==>
      (Sound(compute, b, 0) && b[0].install == a[|a| - 1].install && b[0].prevHash == a[|a| - 1].hash);
    if Chained(compute, c) {
      forall i | 0 <= i < |a| ensures Sound(compute, a, i) {
        assert Sound(compute, c, i);
      }
      forall i | 0 <= i < |b| ensures Sound(compute, b, i) {
        assert Sound(compute, c, |a| + i);
      }
    }
    if Chained(compute, a) && Chained(compute, b) && b[0].install == a[|a| - 1].install && b[0].prevHash == a[|a| - 1].hash {
      forall i | 0 <= i < |c| ensures Sound(compute, c, i) {
        if i < |a| {
          assert Sound(compute, a, i);
        } else {
          assert Sound(compute, b, i - |a|);
        }
      }
    }
  }

  lemma {:induction false} WarningsConcat(a: seq<Rec>, b: seq<Rec>)
    requires a != [] && b != []
    ensures Warnings(a + b) == Warnings(a) +
      (if b[0].ts < a[|a| - 1].ts then [Problem(b[0].seqNo, ClockWentBack)] else []) + Warnings(b)
    decreases |b|
  {
    var n := |b| - 1;
    assert (a + b)[..|a| + n] == a + b[..n];
    if n > 0 {
      WarningsConcat(a, b[..n]);
    } else {
      assert a + b[..0] == a;
    }
  }

  function After(last: Rec): Opts {
    Opts(false, Some(Anchor(last.seqNo, last.hash)))
  }

  lemma KeysAbove(b: seq<Rec>, edge: int)
    requires b != []
    ensures Firsts(b) != map[]
    ensures Above(b, edge) <==> Min(Firsts(b).Keys) >= edge
  {
    CollectHas(map[], b);
    assert b[0] in b;
    assert b[0].seqNo in Firsts(b);
    if Min(Firsts(b).Keys) >= edge {
      forall r | r in b ensures r.seqNo >= edge {
        assert r.seqNo in Firsts(b);
      }
    }
  }

  lemma MinUnique(m: map<int, Rec>, start: int)
    requires m != map[] && Contiguous(m, start)
    ensures Min(m.Keys) == start
  {
    assert |m| > 0;
    assert start in m;
  }

  lemma JoinsNothing(base: map<int, Rec>, start: int)
    requires Contiguous(base, start)
    ensures Joins(base, map[], base, start + |base|)
  {
  }

  /** Behind a passed source a, the lines of b are timely for the whole exactly
      when they are timely for a source starting at the next record. */
  lemma JoinTimely(compute: Hasher, window: nat, a: seq<Rec>, b: seq<Rec>, start: int)
    requires Contiguous(Firsts(a), start) && Above(b, start + |Firsts(a)|)
    ensures AllTimely(compute, window, start, map[], a + b) <==>
      (AllTimely(compute, window, start, map[], a) &&
       AllTimely(compute, window, start + |Firsts(a)|, map[], b))
  {
    var base := Firsts(a);
    TimelyConcat(compute, window, start, map[], a, b);
    assert AllTimely(compute, window, start, base, b) <==>
           AllTimely(compute, window, start + |base|, map[], b) by {
      JoinsNothing(base, start);
      TimelyShift(compute, window, start, base, map[], base, b);
    }
  }

  lemma JoinMet(a: seq<Rec>, b: seq<Rec>, start: int)
    requires Contiguous(Firsts(a), start) && Above(b, start + |Firsts(a)|)
    ensures Joins(Firsts(a), Firsts(b), Firsts(a + b), start + |Firsts(a)|)
  {
    CollectConcat(map[], a, b);
    JoinsNothing(Firsts(a), start);
    JoinsCollect(Firsts(a), map[], Firsts(a), start + |Firsts(a)|, b);
  }

  /** What a + b holds: a's records, then b's. */
  lemma JoinHolds(a: seq<Rec>, b: seq<Rec>, start: int)
    requires a != [] && start in Firsts(a) && Contiguous(Firsts(a), start)
    requires Above(b, start + |Firsts(a)|)
    ensures start in Firsts(a + b) && Firsts(a + b)[start] == Firsts(a)[start]
    ensures forall k | k in Firsts(a + b) :: k >= start
    ensures Contiguous(Firsts(a + b), start) <==> Contiguous(Firsts(b), start + |Firsts(a)|)
    ensures Contiguous(Firsts(a + b), start) ==>
      Ordered(Firsts(a + b), start) == Ordered(Firsts(a), start) + Ordered(Firsts(b), start + |Firsts(a)|)
  {
    hide Joins, Collect;
    JoinMet(a, b, start);
    ContiguousJoin(Firsts(a), Firsts(b), Firsts(a + b), start);
    if Contiguous(Firsts(b), start + |Firsts(a)|) {
      OrderedJoin(Firsts(a), Firsts(b), Firsts(a + b), start);
    }
  }

  /** Acceptability, once the start is known. */
  lemma AcceptableFrom(compute: Hasher, window: nat, opts: Opts, rs: seq<Rec>, start: int)
    requires rs != [] && Firsts(rs) != map[] && Contiguous(Firsts(rs), start)
    ensures start in Firsts(rs) && Chain(rs) == Ordered(Firsts(rs), start)
    ensures Acceptable(compute, window, opts, rs) <==>
      && AllTimely(compute, window, start, map[], rs)
      && Opens(opts, Firsts(rs)[start])
      && Chained(compute, Ordered(Firsts(rs), start))
  {
    MinUnique(Firsts(rs), start);
  }

  lemma AcceptableStarts(compute: Hasher, window: nat, opts: Opts, rs: seq<Rec>) returns (start: int)
    requires rs != [] && Acceptable(compute, window, opts, rs)
    ensures Firsts(rs) != map[] && Contiguous(Firsts(rs), start) && start in Firsts(rs)
    ensures Opens(opts, Firsts(rs)[start]) && Chained(compute, Ordered(Firsts(rs), start))
    ensures AllTimely(compute, window, start, map[], rs)
    ensures Chain(rs) == Ordered(Firsts(rs), start)
    ensures forall k | k in Firsts(rs) :: Firsts(rs)[k].seqNo == k
  {
    start := Min(Firsts(rs).Keys);
    CollectExtends(map[], rs);
  }

  /** b joins base's last record when it starts right above it and says so. */
  lemma JoinsLast(compute: Hasher, window: nat, last: Rec, b: seq<Rec>)
    requires b != [] && Acceptable(compute, window, After(last), b)
    ensures Firsts(b) != map[] && Contiguous(Firsts(b), last.seqNo + 1)
    ensures Above(b, last.seqNo + 1)
  {
    var start := AcceptableStarts(compute, window, After(last), b);
    MinUnique(Firsts(b), start);
    KeysAbove(b, start);
  }

  /** The chain of a + b, once b holds nothing old. */
  lemma JoinAcceptable(compute: Hasher, window: nat, opts: Opts, a: seq<Rec>, b: seq<Rec>)
    requires a != [] && b != [] && Acceptable(compute, window, opts, a) && Chain(a) != []
    requires Above(b, Chain(a)[|Chain(a)| - 1].seqNo + 1)
    requires forall r | r in b :: r.install == Chain(a)[0].install
    ensures Acceptable(compute, window, After(Chain(a)[|Chain(a)| - 1]), b) <==>
            Acceptable(compute, window, opts, a + b)
    ensures Acceptable(compute, window, opts, a + b) ==>
      Firsts(b) != map[] && Contiguous(Firsts(b), Min(Firsts(b).Keys)) && Chain(a + b) == Chain(a) + Chain(b)
  {
    hide Acceptable, AllTimely, Chained, Collect;
    var start := AcceptableStarts(compute, window, opts, a);
    var last := Chain(a)[|Chain(a)| - 1];
    var edge := start + |Firsts(a)|;
    assert last.seqNo + 1 == edge;
    JoinTimely(compute, window, a, b, start);
    JoinHolds(a, b, start);
    KeysAbove(b, edge);
    if Contiguous(Firsts(b), edge) {
      MinUnique(Firsts(b), edge);
      AcceptableFrom(compute, window, opts, a + b, start);
      AcceptableFrom(compute, window, After(last), b, edge);
      CollectExtends(map[], b);
      JoinChained(compute, window, opts, a, b);
    } else {
      JoinRefused(compute, window, opts, a, b, start);
    }
  }

  lemma JoinRefused(compute: Hasher, window: nat, opts: Opts, a: seq<Rec>, b: seq<Rec>, start: int)
    requires a != [] && b != [] && Acceptable(compute, window, opts, a) && Chain(a) != []
    requires Contiguous(Firsts(a), start) && Chain(a)[|Chain(a)| - 1].seqNo + 1 == start + |Firsts(a)|
    requires start in Firsts(a + b) && forall k | k in Firsts(a + b) :: k >= start
    requires !Contiguous(Firsts(b), start + |Firsts(a)|) && !Contiguous(Firsts(a + b), start)
    ensures !Acceptable(compute, window, After(Chain(a)[|Chain(a)| - 1]), b)
    ensures !Acceptable(compute, window, opts, a + b)
  {
    if Acceptable(compute, window, After(Chain(a)[|Chain(a)| - 1]), b) {
      JoinsLast(compute, window, Chain(a)[|Chain(a)| - 1], b);
    }
    assert Min(Firsts(a + b).Keys) == start;
  }

  lemma JoinChained(compute: Hasher, window: nat, opts: Opts, a: seq<Rec>, b: seq<Rec>)
    requires a != [] && b != [] && Acceptable(compute, window, opts, a)
    requires Firsts(b) != map[] && Contiguous(Firsts(b), Min(Firsts(b).Keys))
    requires forall r | r in b :: r.install == Chain(a)[0].install
    ensures Chained(compute, Chain(a) + Chain(b)) <==>
      Chained(compute, Chain(b)) && Chain(b)[0].prevHash == Chain(a)[|Chain(a)| - 1].hash
  {
    var c, d := Chain(a), Chain(b);
    ChainedConcat(compute, c, d);
    CollectValue(map[], b, Min(Firsts(b).Keys));
    assert d[0] in b;
    OneInstall(compute, c, |c| - 1);
  }

  lemma {:induction false} OneInstall(compute: Hasher, c: seq<Rec>, i: nat)
    requires i < |c| && Chained(compute, c)
    ensures c[i].install == c[0].install
  {
    if i > 0 {
      OneInstall(compute, c, i - 1);
      assert Sound(compute, c, i);
    }
  }

  lemma FirstIn(compute: Hasher, window: nat, opts: Opts, a: seq<Rec>)
    requires window > 0 && a != [] && Acceptable(compute, window, opts, a)
    ensures Chain(a) != [] && Chain(a)[0] in a
  {
    var start := AcceptableStarts(compute, window, opts, a);
    CollectValue(map[], a, start);
  }

  /** Whether b joins, in terms of what is acceptable; and the chain it makes. */
  lemma ComposeDecides(compute: Hasher, window: nat, opts: Opts, a: seq<Rec>, b: seq<Rec>)
    requires window > 0 && a != [] && b != [] && Acceptable(compute, window, opts, a)
    requires forall r, s | r in a && s in b :: r.install == s.install
    ensures Chain(a) != []
    ensures var last := Chain(a)[|Chain(a)| - 1];
      && (Acceptable(compute, window, After(last), b) <==>
            Acceptable(compute, window, opts, a + b) && Above(b, last.seqNo + 1))
      && (Acceptable(compute, window, After(last), b) ==> Chain(b) != [] && Chain(a + b) == Chain(a) + Chain(b))
  {
    hide AllTimely, Chained, Collect;
    FirstIn(compute, window, opts, a);
    var last := Chain(a)[|Chain(a)| - 1];
    if Above(b, last.seqNo + 1) {
      JoinAcceptable(compute, window, opts, a, b);
    } else if Acceptable(compute, window, After(last), b) {
      JoinsLast(compute, window, last, b);
    }
    if Acceptable(compute, window, After(last), b) {
      var start := AcceptableStarts(compute, window, After(last), b);
    }
  }

  /** The results of two chains and of the one they make together. */
  lemma VerdictsAdd(opts: Opts, a: seq<Rec>, b: seq<Rec>)
    requires a != [] && b != []
    ensures var last := a[|a| - 1];
      var ra, rb, rab := Verdict(opts, a), Verdict(After(last), b), Verdict(opts, a + b);
      && rab.records == ra.records + rb.records
      && rab.firstSeq == ra.firstSeq && rab.lastSeq == rb.lastSeq
      && rab.fragment == ra.fragment && rab.anchored == ra.anchored
      && exists edge: seq<Problem> :: |edge| <= 1 && rab.warnings == ra.warnings + edge + rb.warnings
  {
    WarningsConcat(a, b);
    var edge := if b[0].ts < a[|a| - 1].ts then [Problem(b[0].seqNo, ClockWentBack)] else [];
    assert Warnings(a + b) == Warnings(a) + edge + Warnings(b);
  }

  /** Composition. For a source a that is passed and a source b of the same
      install, b joins a's last record exactly when a followed by b is passed and
      b repeats nothing of a; and then the results add up. */
  lemma FragmentsCompose(compute: Hasher, window: nat, opts: Opts, a: seq<Rec>, b: seq<Rec>)
    requires window > 0 && a != [] && b != []
    requires Verify(compute, window, Items(a), opts).OK()
    requires forall r, s | r in a && s in b :: r.install == s.install
    ensures Acceptable(compute, window, opts, a)
    ensures var last := Chain(a)[|Chain(a)| - 1];
      var ra := Verify(compute, window, Items(a), opts);
      var rb := Verify(compute, window, Items(b), After(last));
      var rab := Verify(compute, window, Items(a + b), opts);
      && last.seqNo == ra.lastSeq
      && (rb.OK() <==> rab.OK() && Above(b, last.seqNo + 1))
      && (rb.OK() ==>
            && rab.records == ra.records + rb.records
            && rab.firstSeq == ra.firstSeq && rab.lastSeq == rb.lastSeq
            && rab.fragment == ra.fragment && rab.anchored == ra.anchored
            && exists edge: seq<Problem> :: |edge| <= 1 && rab.warnings == ra.warnings + edge + rb.warnings)
  {
    hide Verify, AllTimely, Chained, Collect, Contiguous, Above, Warnings, After;
    VerifyExact(compute, window, a, opts);
    ComposeDecides(compute, window, opts, a, b);
    var last := Chain(a)[|Chain(a)| - 1];
    VerifyExact(compute, window, b, After(last));
    VerifyExact(compute, window, a + b, opts);
    if Acceptable(compute, window, After(last), b) {
      VerdictsAdd(opts, Chain(a), Chain(b));
    }
  }

  /** A source may be followed by its own last record again; no anchor admits that
      record, so b's first line decides whether anchoring and joining agree. */
  lemma OverlapDiffers(compute: Hasher, window: nat, opts: Opts, a: seq<Rec>, b: seq<Rec>)
    requires window > 0 && a != [] && Verify(compute, window, Items(a), opts).OK()
    ensures Acceptable(compute, window, opts, a) && Chain(a) != []
    ensures var last := Chain(a)[|Chain(a)| - 1];
      && Verify(compute, window, Items(a + [last]), opts) == Verify(compute, window, Items(a), opts)
      && !Verify(compute, window, Items([last] + b), After(last)).OK()
  {
    VerifyExact(compute, window, a, opts);
    var start := AcceptableStarts(compute, window, opts, a);
    var last := Chain(a)[|Chain(a)| - 1];
    assert Sound(compute, Chain(a), |Chain(a)| - 1);
    TimelyConcat(compute, window, start, map[], a, [last]);
    CollectConcat(map[], a, [last]);
    assert last.seqNo in Firsts(a) && Firsts(a)[last.seqNo] == last;
    assert Firsts(a + [last]) == Firsts(a);
    assert AllTimely(compute, window, start, Firsts(a), [last]);
    AcceptableFrom(compute, window, opts, a + [last], start);
    VerifyExact(compute, window, a + [last], opts);
    VerifyExact(compute, window, [last] + b, After(last));
    if Acceptable(compute, window, After(last), [last] + b) {
      assert last == ([last] + b)[0];
      JoinsLast(compute, window, last, [last] + b);
      assert false;
    }
  }

  // ---------------------------------------------------------------------
  // Anchoring after the fact.

  /** The database is asked for the record before a fragment. */
  function Ask(res: Result, hashAt: map<int, string>): Result {
    if !res.OK() || !res.fragment || res.firstSeq - 1 < 1 || res.firstSeq - 1 !in hashAt then res
    else if hashAt[res.firstSeq - 1] != res.firstPrevHash then
      res.(brk := Some(Problem(res.firstSeq, NotAnchored)))
    else res.(anchored := true)
  }

  function VerifyMirror(compute: Hasher, window: nat, items: seq<Item>, hashAt: map<int, string>): Result {
    Ask(Verify(compute, window, items, Opts(false, None)), hashAt)
  }

  /** The same lines with and without an anchor. */
  lemma ReanchoredLines(compute: Hasher, window: nat, rs: seq<Rec>, hash: string)
    requires rs != [] && Acceptable(compute, window, Opts(false, None), rs)
    requires Verdict(Opts(false, None), Chain(rs)).fragment
    ensures var res := Verdict(Opts(false, None), Chain(rs));
      var opts := Opts(false, Some(Anchor(res.firstSeq - 1, hash)));
      && (Acceptable(compute, window, opts, rs) <==> hash == res.firstPrevHash)
      && (Acceptable(compute, window, opts, rs) ==> Verdict(opts, Chain(rs)) == res.(anchored := true))
  {
    var start := AcceptableStarts(compute, window, Opts(false, None), rs);
    assert Chain(rs)[0] == Firsts(rs)[start];
    AcceptableFrom(compute, window, Opts(false, Some(Anchor(start - 1, hash))), rs, start);
  }

  lemma ReanchoredVerify(compute: Hasher, window: nat, rs: seq<Rec>, hash: string, res: Result)
    requires window > 0 && res == Verify(compute, window, Items(rs), Opts(false, None)) && res.OK() && res.fragment
    ensures var known := Verify(compute, window, Items(rs), Opts(false, Some(Anchor(res.firstSeq - 1, hash))));
      && (known.OK() <==> hash == res.firstPrevHash)
      && (known.OK() ==> known == res.(anchored := true))
  {
    var none := Opts(false, None);
    VerifyExact(compute, window, rs, none);
    VerifyExact(compute, window, rs, Opts(false, Some(Anchor(res.firstSeq - 1, hash))));
    ReanchoredLines(compute, window, rs, hash);
  }

  /** Asking afterwards gives the answer that knowing the anchor would have given,
      without reading the file twice. */
  lemma MirrorAnchors(compute: Hasher, window: nat, items: seq<Item>, hashAt: map<int, string>, k: int)
    requires window > 0 && k >= 1 && k in hashAt
    requires var res := Verify(compute, window, items, Opts(false, None));
      res.OK() && res.fragment && res.firstSeq == k + 1
    ensures VerifyMirror(compute, window, items, hashAt).OK() <==>
            Verify(compute, window, items, Opts(false, Some(Anchor(k, hashAt[k])))).OK()
    ensures VerifyMirror(compute, window, items, hashAt).OK() ==>
            VerifyMirror(compute, window, items, hashAt) ==
            Verify(compute, window, items, Opts(false, Some(Anchor(k, hashAt[k]))))
  {
    hide Verify;
    VerifyAccepts(compute, window, items, Opts(false, None));
    ReanchoredVerify(compute, window, Lines(items), hashAt[k], Verify(compute, window, items, Opts(false, None)));
  }

  // ---------------------------------------------------------------------
  // The head of a chain.

  /** Hashing by way of a preimage. */
  function Hashing(pre: Rec -> Option<string>, sha: string -> string): Hasher {
    r => match pre(r) case None => None case Some(b) => Some(sha(b))
  }

  /** The link to the predecessor is part of what is hashed. */
  ghost predicate LinkHashed(pre: Rec -> Option<string>) {
    forall r, s :: pre(r).Some? && pre(r) == pre(s) ==> r.prevHash == s.prevHash
  }

  /** r and s are hashed from different bytes to one hash. */
  ghost predicate Collide(pre: Rec -> Option<string>, sha: string -> string, r: Rec, s: Rec) {
    pre(r).Some? && pre(s).Some? && pre(r) != pre(s) && sha(pre(r).value) == sha(pre(s).value)
  }

  ghost predicate Collision(pre: Rec -> Option<string>, sha: string -> string, a: seq<Rec>, b: seq<Rec>) {
    exists r, s :: r in a + b && s in a + b && Collide(pre, sha, r, s)
  }

  lemma {:induction false} ChainsAgree(pre: Rec -> Option<string>, sha: string -> string, a: seq<Rec>, b: seq<Rec>,
      c: seq<Rec>, d: seq<Rec>, i: nat)
    requires LinkHashed(pre) && Chained(Hashing(pre, sha), c) && Chained(Hashing(pre, sha), d)
    requires |c| == |d| && i < |c| && c[|c| - 1].hash == d[|d| - 1].hash
    requires (forall r | r in c :: r in a) && (forall r | r in d :: r in b)
    requires !Collision(pre, sha, a, b)
    ensures c[i].hash == d[i].hash && pre(c[i]) == pre(d[i])
    decreases |c| - i
  {
    var h := Hashing(pre, sha);
    assert Sound(h, c, i) && Sound(h, d, i);
    if i + 1 < |c| {
      ChainsAgree(pre, sha, a, b, c, d, i + 1);
      assert Sound(h, c, i + 1) && Sound(h, d, i + 1);
    }
    assert c[i] in a + b && d[i] in a + b;
    assert !Collide(pre, sha, c[i], d[i]);
  }

  lemma ChainIn(rs: seq<Rec>)
    requires rs == [] || (Firsts(rs) != map[] && Contiguous(Firsts(rs), Min(Firsts(rs).Keys)))
    ensures forall r | r in Chain(rs) :: r in rs
  {
    forall r | r in Chain(rs) ensures r in rs {
      var i :| 0 <= i < |Chain(rs)| && Chain(rs)[i] == r;
      CollectValue(map[], rs, Min(Firsts(rs).Keys) + i);
    }
  }

  const WHOLE := Opts(true, None)

  /** What being acceptable from genesis says of one line. */
  lemma FromGenesis(h: Hasher, window: nat, a: seq<Rec>, r: Rec)
    requires window > 0 && a != [] && Acceptable(h, window, WHOLE, a) && r in a
    ensures 1 <= r.seqNo <= |Chain(a)| && h(r) == Some(r.hash) && r.hash == Chain(a)[r.seqNo - 1].hash
    ensures Chained(h, Chain(a))
  {
    var start := AcceptableStarts(h, window, WHOLE, a);
    PassedLines(h, window, WHOLE, a, r);
  }

  lemma GenesisAt(h: Hasher, window: nat, a: seq<Rec>, i: nat)
    requires window > 0 && a != [] && Acceptable(h, window, WHOLE, a) && i < |Chain(a)|
    ensures Chain(a)[i] in a && Chain(a)[i].seqNo == i + 1
  {
    var start := AcceptableStarts(h, window, WHOLE, a);
    CollectValue(map[], a, start + i);
  }

  lemma GenesisIn(h: Hasher, window: nat, a: seq<Rec>)
    requires window > 0 && a != [] && Acceptable(h, window, WHOLE, a)
    ensures forall r | r in Chain(a) :: r in a
  {
    ChainIn(a);
  }

  /** r is the last record of a source passed from genesis. */
  ghost predicate Head(h: Hasher, window: nat, a: seq<Rec>, r: Rec) {
    var res := Verify(h, window, Items(a), WHOLE);
    res.OK() && r in a && r.seqNo == res.lastSeq
  }

  lemma VerdictLast(h: Hasher, window: nat, a: seq<Rec>, r: Rec, res: Result)
    requires window > 0 && a != [] && Acceptable(h, window, WHOLE, a)
    requires res == Verdict(WHOLE, Chain(a)) && r in a && r.seqNo == res.lastSeq
    ensures r.seqNo == |Chain(a)| > 0
    ensures r.hash == Chain(a)[|Chain(a)| - 1].hash
  {
    FromGenesis(h, window, a, r);
    GenesisAt(h, window, a, |Chain(a)| - 1);
  }

  lemma HeadLast(h: Hasher, window: nat, a: seq<Rec>, r: Rec)
    requires window > 0 && Head(h, window, a, r)
    ensures a != [] && Acceptable(h, window, WHOLE, a) && r.seqNo == |Chain(a)| > 0
    ensures r.hash == Chain(a)[|Chain(a)| - 1].hash
  {
    VerifyExact(h, window, a, WHOLE);
    VerdictLast(h, window, a, r, Verify(h, window, Items(a), WHOLE));
  }

  /** The two sources of HeadCommits, once their chains are known. */
  ghost predicate SameHead(pre: Rec -> Option<string>, sha: string -> string, window: nat, a: seq<Rec>, b: seq<Rec>) {
    && a != [] && b != []
    && Acceptable(Hashing(pre, sha), window, WHOLE, a) && Acceptable(Hashing(pre, sha), window, WHOLE, b)
    && |Chain(a)| == |Chain(b)| > 0 && Chain(a)[|Chain(a)| - 1].hash == Chain(b)[|Chain(b)| - 1].hash
    && !Collision(pre, sha, a, b)
  }

  lemma SamePreimage(pre: Rec -> Option<string>, sha: string -> string, window: nat,
      a: seq<Rec>, b: seq<Rec>, r: Rec, s: Rec)
    requires window > 0 && LinkHashed(pre) && SameHead(pre, sha, window, a, b)
    requires r in a && s in b && r.seqNo == s.seqNo
    ensures pre(r) == pre(s)
  {
    hide Chained, Collision, AllTimely, Firsts, LinkHashed;
    var h := Hashing(pre, sha);
    FromGenesis(h, window, a, r);
    FromGenesis(h, window, b, s);
    GenesisIn(h, window, a);
    GenesisIn(h, window, b);
    ChainsAgree(pre, sha, a, b, Chain(a), Chain(b), r.seqNo - 1);
    NoCollide(pre, sha, a, b, r, s);
  }

  lemma NoCollide(pre: Rec -> Option<string>, sha: string -> string, a: seq<Rec>, b: seq<Rec>, r: Rec, s: Rec)
    requires r in a && s in b && !Collision(pre, sha, a, b)
    ensures !Collide(pre, sha, r, s)
  {
    assert r in a + b && s in a + b;
  }

  lemma SameCover(pre: Rec -> Option<string>, sha: string -> string, window: nat,
      a: seq<Rec>, b: seq<Rec>, r: Rec) returns (s: Rec)
    requires window > 0 && SameHead(pre, sha, window, a, b) && r in a
    ensures s in b && s.seqNo == r.seqNo
  {
    FromGenesis(Hashing(pre, sha), window, a, r);
    GenesisAt(Hashing(pre, sha), window, b, r.seqNo - 1);
    s := Chain(b)[r.seqNo - 1];
  }

  /** Two sources passed from genesis whose last records carry one hash, at one
      sequence number, hold the same history: they cover the same sequence
      numbers, and lines with one sequence number are hashed from the same bytes,
      unless two lines among them exhibit a hash collision. */
  lemma HeadCommits(pre: Rec -> Option<string>, sha: string -> string, window: nat,
      a: seq<Rec>, b: seq<Rec>, headA: Rec, headB: Rec)
    requires window > 0 && LinkHashed(pre)
    requires Head(Hashing(pre, sha), window, a, headA) && Head(Hashing(pre, sha), window, b, headB)
    requires headA.seqNo == headB.seqNo && headA.hash == headB.hash
    requires !Collision(pre, sha, a, b)
    ensures forall r, s | r in a && s in b && r.seqNo == s.seqNo :: pre(r) == pre(s)
    ensures forall r | r in a :: exists s :: s in b && s.seqNo == r.seqNo
  {
    assert SameHead(pre, sha, window, a, b) by {
      HeadLast(Hashing(pre, sha), window, a, headA);
      HeadLast(Hashing(pre, sha), window, b, headB);
    }
    forall r, s | r in a && s in b && r.seqNo == s.seqNo ensures pre(r) == pre(s) {
      SamePreimage(pre, sha, window, a, b, r, s);
    }
    forall r | r in a ensures exists s :: s in b && s.seqNo == r.seqNo {
      var s := SameCover(pre, sha, window, a, b, r);
    }
  }
}
