/** What follows for whoever relies on the verifier: nothing damaged or forged is passed
    over, and every line of a passed source is genuine. */
module ChainLaws {
  import opened Prelude
  import opened AuditRecord
  import opened ChainVerify
  import opened ChainExact

  // ---------------------------------------------------------------------
  // Damage.

  lemma {:induction false} FillKeepsDamage(compute: Hasher, window: nat, s: State)
    requires s.res.OK() && (s.damaged || Damage in s.rest)
    ensures var t := Fill(compute, window, s); t.damaged || Damage in t.rest || !t.res.OK()
    decreases |s.rest|
  {
    if |s.pending| < window && s.rest != [] && s.rest[0].Line? {
      var t := Read(compute, s);
      if t.res.OK() {
        FillKeepsDamage(compute, window, t);
      }
    }
  }

  lemma {:induction false} RunDamaged(compute: Hasher, window: nat, s: State)
    requires window > 0 && s.res.OK() && (s.damaged || Damage in s.rest)
    requires |s.pending| >= window || s.rest == [] || s.damaged
    ensures !Run(compute, window, s).OK()
    decreases |s.rest| + |s.pending|
  {
    if s.next !in s.pending {
      assert !s.damaged ==> |s.pending| > 0;
    } else if Fault(compute, s.prev, s.pending[s.next]).None? {
      var c := Consume(s);
      PendingShrinks(s.pending, s.next);
      FillKeepsDamage(compute, window, c);
      var t := Fill(compute, window, c);
      if t.res.OK() {
        RunDamaged(compute, window, t);
      }
    }
  }

  /** A line that cannot be read as a record is never passed over. */
  lemma DamageBreaks(compute: Hasher, window: nat, items: seq<Item>, opts: Opts)
    requires window > 0 && Damage in items
    ensures !Verify(compute, window, items, opts).OK()
  {
    var s := Fill(compute, window, Start(items));
    FillKeepsDamage(compute, window, Start(items));
    if s.res.OK() && s.pending != map[] {
      var t := Begin(opts, s);
      if t.res.OK() {
        RunDamaged(compute, window, t);
      }
    }
  }

  /** The acceptance theorem over every source, readable or not. */
  lemma VerifyAccepts(compute: Hasher, window: nat, items: seq<Item>, opts: Opts)
    requires window > 0
    ensures Verify(compute, window, items, opts).OK() <==>
            Undamaged(items) && Acceptable(compute, window, opts, Lines(items))
  {
    if Undamaged(items) {
      VerifyExact(compute, window, Lines(items), opts);
    } else {
      var i :| 0 <= i < |items| && !items[i].Line?;
      assert items[i] == Damage;
      DamageBreaks(compute, window, items, opts);
    }
  }

  // ---------------------------------------------------------------------
  // Positions: the description line by line.

  lemma {:induction false} CollectSnoc(met: map<int, Rec>, rs: seq<Rec>, r: Rec)
    ensures Collect(met, rs + [r]) == Add(Collect(met, rs), r)
    decreases |rs|
  {
    if rs != [] {
      assert (rs + [r])[1..] == rs[1..] + [r];
      CollectSnoc(Add(met, rs[0]), rs[1..], r);
    }
  }

  lemma {:induction false} TimelyAt(compute: Hasher, window: nat, start: int, met: map<int, Rec>, rs: seq<Rec>)
    ensures AllTimely(compute, window, start, met, rs) <==>
      forall p | 0 <= p < |rs| :: Timely(compute, window, start, Collect(met, rs[..p]), rs[p])
    decreases |rs|
  {
    if rs != [] {
      var m, tl := Add(met, rs[0]), rs[1..];
      TimelyAt(compute, window, start, m, tl);
      assert Collect(met, rs[..0]) == met;
      forall p | 0 <= p < |tl| ensures Collect(m, tl[..p]) == Collect(met, rs[..p + 1]) && tl[p] == rs[p + 1] {
        assert rs[..p + 1][1..] == tl[..p];
      }
      assert forall p | 1 <= p < |rs| :: Collect(met, rs[..p]) == Collect(m, tl[..p - 1]) && tl[p - 1] == rs[p];
      if forall p | 0 <= p < |rs| :: Timely(compute, window, start, Collect(met, rs[..p]), rs[p]) {
        forall p | 0 <= p < |tl| ensures Timely(compute, window, start, Collect(m, tl[..p]), tl[p]) {
          assert Timely(compute, window, start, Collect(met, rs[..p + 1]), rs[p + 1]);
        }
        assert Timely(compute, window, start, Collect(met, rs[..0]), rs[0]);
      }
    }
  }

  lemma {:induction false} CollectHas(met: map<int, Rec>, rs: seq<Rec>)
    requires forall k | k in met :: met[k].seqNo == k
    ensures forall k :: k in Collect(met, rs) <==> k in met || exists r :: r in rs && r.seqNo == k
    ensures forall k | k in Collect(met, rs) && k !in met :: Collect(met, rs)[k] in rs
    decreases |rs|
  {
    if rs != [] {
      var m := Add(met, rs[0]);
      CollectHas(m, rs[1..]);
      CollectExtends(m, rs[1..]);
      assert forall r :: r in rs <==> r == rs[0] || r in rs[1..];
      assert rs[0].seqNo in m;
    }
  }

  lemma {:induction false} CollectValue(met: map<int, Rec>, rs: seq<Rec>, k: int)
    requires k in Collect(met, rs) && k !in met
    ensures Collect(met, rs)[k] in rs && Collect(met, rs)[k].seqNo == k
    decreases |rs|
  {
    var m := Add(met, rs[0]);
    if k in m {
      CollectKeeps(m, rs[1..], k);
    } else {
      CollectValue(m, rs[1..], k);
    }
  }

  lemma {:induction false} CollectKeeps(met: map<int, Rec>, rs: seq<Rec>, k: int)
    requires k in met
    ensures k in Collect(met, rs) && Collect(met, rs)[k] == met[k]
    decreases |rs|
  {
    if rs != [] {
      CollectKeeps(Add(met, rs[0]), rs[1..], k);
    }
  }

  // ---------------------------------------------------------------------
  // Forgery.

  lemma {:induction false} LinesGenuine(compute: Hasher, window: nat, start: int, met: map<int, Rec>, rs: seq<Rec>)
    requires AllTimely(compute, window, start, met, rs)
    requires forall k | k in met :: met[k].seqNo == k
    ensures forall r | r in rs ::
      (r.seqNo in Collect(met, rs) &&
       (r == Collect(met, rs)[r.seqNo] || CopyOf(compute, Collect(met, rs)[r.seqNo], r)))
    decreases |rs|
  {
    if rs != [] {
      var m := Add(met, rs[0]);
      LinesGenuine(compute, window, start, m, rs[1..]);
      CollectExtends(m, rs[1..]);
      assert rs[0].seqNo in m;
      assert forall r :: r in rs <==> r == rs[0] || r in rs[1..];
    }
  }

  /** Every line of a passed source hashes to what it carries, and carries the
      hash of the chain's record at its sequence number. */
  lemma PassedLines(compute: Hasher, window: nat, opts: Opts, rs: seq<Rec>, r: Rec)
    requires window > 0 && Acceptable(compute, window, opts, rs) && r in rs
    ensures r.seqNo in Firsts(rs)
    ensures compute(r) == Some(r.hash) && r.hash == Firsts(rs)[r.seqNo].hash
  {
    var all := Firsts(rs);
    var start := Min(all.Keys);
    LinesGenuine(compute, window, start, map[], rs);
    var c := Ordered(all, start);
    assert Sound(compute, c, r.seqNo - start);
  }

  /** A second line for one sequence number with other content is never absorbed,
      whichever of the two comes first and wherever it stands. */
  lemma ForgeryBreaks(compute: Hasher, window: nat, items: seq<Item>, opts: Opts, p: nat, q: nat)
    requires window > 0 && p < |items| && q < |items| && items[p].Line? && items[q].Line?
    requires items[p].r.seqNo == items[q].r.seqNo
    requires compute(items[p].r) != compute(items[q].r) || compute(items[p].r) != Some(items[p].r.hash)
             || compute(items[q].r) != Some(items[q].r.hash)
    ensures !Verify(compute, window, items, opts).OK()
  {
    VerifyAccepts(compute, window, items, opts);
    if Undamaged(items) && Acceptable(compute, window, opts, Lines(items)) {
      var rs := Lines(items);
      assert items == Items(rs);
      assert rs[p] in rs && rs[q] in rs;
      PassedLines(compute, window, opts, rs, rs[p]);
      PassedLines(compute, window, opts, rs, rs[q]);
      assert false;
    }
  }
}
