/** Order and redelivery: how far out of place a record may stand, and what the
    copies a source repeats may change. */
module ChainDisorder {
  import opened Prelude
  import opened AuditRecord
  import opened ChainVerify
  import opened ChainExact
  import opened ChainLaws

  /** A whole chain: consecutive, sound, and opening where opts allows. */
  ghost predicate Genuine(compute: Hasher, opts: Opts, c: seq<Rec>) {
    && c != []
    && Consecutive(c)
    && Opens(opts, c[0])
    && Chained(compute, c)
  }

  /** rs delivers each record of c once, in some order. */
  ghost predicate Shuffles(rs: seq<Rec>, c: seq<Rec>) {
    multiset(rs) == multiset(c)
  }

  // ---------------------------------------------------------------------
  // A source without repeats.

  ghost predicate Distinct(rs: seq<Rec>) {
    forall i, j | 0 <= i < j < |rs| :: rs[i].seqNo != rs[j].seqNo
  }

  lemma ShuffleMembers(rs: seq<Rec>, c: seq<Rec>)
    requires Shuffles(rs, c)
    ensures |rs| == |c| && SameRecords(rs, c)
  {
    assert |multiset(rs)| == |rs| && |multiset(c)| == |c|;
    forall r ensures r in rs <==> r in c {
      assert r in rs <==> r in multiset(rs);
      assert r in c <==> r in multiset(c);
    }
  }

  lemma Twice(rs: seq<Rec>, i: nat, j: nat)
    requires i < j < |rs| && rs[i] == rs[j]
    ensures multiset(rs)[rs[i]] >= 2
  {
    assert rs == rs[..j] + rs[j..];
    assert rs[..j][i] == rs[i] && rs[j..][0] == rs[i];
    assert rs[i] in multiset(rs[..j]) && rs[i] in multiset(rs[j..]);
  }

  lemma Once(c: seq<Rec>, k: nat)
    requires k < |c| && Consecutive(c)
    ensures multiset(c)[c[k]] == 1
  {
    assert c == c[..k] + [c[k]] + c[k + 1..];
    assert c[k] !in c[..k] && c[k] !in c[k + 1..];
    assert multiset(c) == multiset(c[..k]) + multiset{c[k]} + multiset(c[k + 1..]);
  }

  lemma {:induction false} CountDistinct(rs: seq<Rec>, r: Rec)
    requires Distinct(rs)
    ensures multiset(rs)[r] == if r in rs then 1 else 0
    decreases |rs|
  {
    if rs != [] {
      var tl := rs[1..];
      assert rs == [rs[0]] + tl;
      assert multiset(rs) == multiset{rs[0]} + multiset(tl);
      forall i, j | 0 <= i < j < |tl| ensures tl[i].seqNo != tl[j].seqNo {
        assert tl[i] == rs[i + 1] && tl[j] == rs[j + 1];
      }
      CountDistinct(tl, r);
    }
  }

  /** The same records, none repeated on either side. */
  lemma DistinctShuffles(rs: seq<Rec>, c: seq<Rec>)
    requires Distinct(rs) && Distinct(c) && SameRecords(rs, c)
    ensures Shuffles(rs, c)
  {
    forall r ensures multiset(rs)[r] == multiset(c)[r] {
      CountDistinct(rs, r);
      CountDistinct(c, r);
    }
  }

  /** A shuffle of consecutive records repeats none of them. */
  lemma ShuffleDistinct(rs: seq<Rec>, c: seq<Rec>)
    requires Shuffles(rs, c) && Consecutive(c)
    ensures Distinct(rs)
  {
    ShuffleMembers(rs, c);
    forall i, j | 0 <= i < j < |rs| ensures rs[i].seqNo != rs[j].seqNo {
      assert rs[i] in c && rs[j] in c;
      var k :| 0 <= k < |c| && c[k] == rs[i];
      Once(c, k);
      if rs[i] == rs[j] {
        Twice(rs, i, j);
      }
    }
  }

  /** Without repeats, line p is timely exactly when its rank is more than p - window. */
  lemma {:induction false} DistinctTimely(compute: Hasher, window: nat, start: int, met: map<int, Rec>, rs: seq<Rec>)
    requires Distinct(rs) && forall r | r in rs :: r.seqNo !in met && r.seqNo >= start
    ensures AllTimely(compute, window, start, met, rs) <==>
            forall p | 0 <= p < |rs| :: |met| + p < window + (rs[p].seqNo - start)
    decreases |rs|
  {
    if rs != [] {
      var m, tl := Add(met, rs[0]), rs[1..];
      assert |m| == |met| + 1;
      forall r | r in tl ensures r.seqNo !in m && r.seqNo >= start {
        var i :| 0 <= i < |tl| && tl[i] == r;
        assert rs[i + 1] == r;
      }
      forall i, j | 0 <= i < j < |tl| ensures tl[i].seqNo != tl[j].seqNo {
        assert tl[i] == rs[i + 1] && tl[j] == rs[j + 1];
      }
      DistinctTimely(compute, window, start, m, tl);
      assert forall p | 0 <= p < |tl| :: tl[p] == rs[p + 1];
      assert forall p | 1 <= p < |rs| :: rs[p] == tl[p - 1];
      assert Timely(compute, window, start, met, rs[0]) <==> |met| < window + (rs[0].seqNo - start);
    }
  }

  ghost predicate Consecutive(c: seq<Rec>) {
    forall i | 0 <= i < |c| :: c[i].seqNo == c[0].seqNo + i
  }

  ghost predicate SameRecords(rs: seq<Rec>, c: seq<Rec>) {
    forall r :: r in rs <==> r in c
  }

  lemma KeysOf(rs: seq<Rec>, c: seq<Rec>)
    requires c != [] && Consecutive(c) && SameRecords(rs, c)
    ensures forall k :: k in Firsts(rs) <==> c[0].seqNo <= k < c[0].seqNo + |c|
    ensures |Firsts(rs)| == |c|
  {
    var all, start := Firsts(rs), c[0].seqNo;
    CollectHas(map[], rs);
    forall k ensures k in all <==> start <= k < start + |c| {
      if start <= k < start + |c| {
        assert c[k - start] in c;
        assert c[k - start] in rs;
      }
      if k in all {
        var r :| r in rs && r.seqNo == k;
        assert r in c;
      }
    }
    assert all.Keys == Range(start, |c|);
  }

  lemma ValueOf(rs: seq<Rec>, c: seq<Rec>, i: nat)
    requires i < |c| && Consecutive(c) && SameRecords(rs, c)
    requires c[0].seqNo + i in Firsts(rs)
    ensures Firsts(rs)[c[0].seqNo + i] == c[i]
  {
    CollectValue(map[], rs, c[0].seqNo + i);
    var r := Firsts(rs)[c[0].seqNo + i];
    assert r in c;
  }

  /** The records a source holds, when it holds exactly those of a genuine chain. */
  lemma ChainOf(rs: seq<Rec>, c: seq<Rec>)
    requires c != [] && Consecutive(c) && SameRecords(rs, c)
    ensures rs != [] && Firsts(rs) != map[]
    ensures Min(Firsts(rs).Keys) == c[0].seqNo && Contiguous(Firsts(rs), c[0].seqNo)
    ensures Ordered(Firsts(rs), c[0].seqNo) == c
  {
    var all, start := Firsts(rs), c[0].seqNo;
    KeysOf(rs, c);
    assert start in all;
    assert c[0] in c;
    forall i | 0 <= i < |c| ensures all[start + i] == c[i] {
      ValueOf(rs, c, i);
    }
    assert Contiguous(all, start);
    assert Ordered(all, start) == c;
  }

  /** Each record once, in any order: the source is passed if and only if no
      record stands a window or more behind its rank, and the result is then the
      one the records in order would give. */
  lemma DisorderExact(compute: Hasher, window: nat, opts: Opts, rs: seq<Rec>, c: seq<Rec>)
    requires window > 0 && Genuine(compute, opts, c) && Shuffles(rs, c)
    ensures Verify(compute, window, Items(rs), opts).OK() <==>
            forall p | 0 <= p < |rs| :: p < window + (rs[p].seqNo - c[0].seqNo)
    ensures Verify(compute, window, Items(c), opts) == Verdict(opts, c)
    ensures Verify(compute, window, Items(rs), opts).OK() ==>
            Verify(compute, window, Items(rs), opts) == Verify(compute, window, Items(c), opts)
  {
    ShuffleMembers(rs, c);
    Genuinely(compute, window, opts, rs, c);
    Genuinely(compute, window, opts, c, c);
  }

  lemma Genuinely(compute: Hasher, window: nat, opts: Opts, rs: seq<Rec>, c: seq<Rec>)
    requires window > 0 && Genuine(compute, opts, c) && Shuffles(rs, c)
    ensures Verify(compute, window, Items(rs), opts).OK() <==>
            forall p | 0 <= p < |rs| :: p < window + (rs[p].seqNo - c[0].seqNo)
    ensures Verify(compute, window, Items(rs), opts).OK() ==>
            Verify(compute, window, Items(rs), opts) == Verdict(opts, c)
  {
    ShuffleMembers(rs, c);
    ShuffleDistinct(rs, c);
    ChainOf(rs, c);
    VerifyExact(compute, window, rs, opts);
    DistinctTimely(compute, window, c[0].seqNo, map[], rs);
  }

  /** One writer that stalls between its commit and its delivery while the others
      go on: the file it leaves is passed exactly while fewer records than the
      window overtook it, however few writers there were. */
  lemma StalledWriter(compute: Hasher, window: nat, opts: Opts, c: seq<Rec>)
    requires window > 0 && Genuine(compute, opts, c)
    ensures Verify(compute, window, Items(c[1..] + [c[0]]), opts).OK() <==> |c| <= window
  {
    hide Verify;
    var rs := c[1..] + [c[0]];
    assert c == [c[0]] + c[1..];
    assert Shuffles(rs, c);
    DisorderExact(compute, window, opts, rs, c);
    assert rs[|c| - 1].seqNo == c[0].seqNo;
  }
}
