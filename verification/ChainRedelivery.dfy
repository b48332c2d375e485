/** Redelivery is neutral: the lines a run absorbs as copies might as well not
    have been in the source, whatever the run goes on to conclude. */
module ChainRedelivery {
  import opened Prelude
  import opened AuditRecord
  import opened ChainVerify
  import opened ChainExact
  import opened ChainLaws

  /** A line the reader in state s would absorb as a copy. */
  predicate Absorbed(compute: Hasher, s: State, item: Item) {
    item.Line? && Admit(compute, s, item.r).Absorb?
  }

  /** What Fill takes in, without the copies it absorbs. */
  function FillKept(compute: Hasher, window: nat, s: State): seq<Item>
    requires s.res.OK()
    decreases |s.rest|
  {
    if |s.pending| >= window || s.rest == [] then []
    else if s.rest[0].Damage? then [Damage]
    else
      var t := Read(compute, s);
      var more := if t.res.OK() then FillKept(compute, window, t) else [];
      if Absorbed(compute, s, s.rest[0]) then more else [s.rest[0]] + more
  }

  /** What a run has still to take in, without the copies it will absorb. */
  function RunKept(compute: Hasher, window: nat, s: State): seq<Item>
    requires s.res.OK()
    decreases |s.rest| + |s.pending|
  {
    if s.next !in s.pending || Fault(compute, s.prev, s.pending[s.next]).Some? then s.rest
    else
      var c := Consume(s);
      PendingShrinks(s.pending, s.next);
      var t := Fill(compute, window, c);
      FillKept(compute, window, c) + if t.res.OK() then RunKept(compute, window, t) else t.rest
  }

  /** The source without the lines its verification absorbs. */
  function Survivors(compute: Hasher, window: nat, items: seq<Item>, opts: Opts): seq<Item> {
    var s := Fill(compute, window, Start(items));
    FillKept(compute, window, Start(items)) +
    if !s.res.OK() || s.pending == map[] || !Begin(opts, s).res.OK() then s.rest
    else RunKept(compute, window, Begin(opts, s))
  }

  /** Reading looks no further than the next line. */
  lemma FillHead(compute: Hasher, window: nat, s: State, tail: seq<Item>)
    requires s.res.OK() && |s.pending| < window && s.rest != [] && s.rest[0].Line?
    ensures var t := Read(compute, s).(rest := tail);
      Fill(compute, window, s.(rest := [s.rest[0]] + tail)) ==
      if t.res.OK() then Fill(compute, window, t) else t
  {
    assert ([s.rest[0]] + tail)[1..] == tail;
    assert Read(compute, s.(rest := [s.rest[0]] + tail)) == Read(compute, s).(rest := tail);
  }

  /** Fill on the kept lines and then z ends where Fill on the lines themselves does. */
  ghost predicate Skips(compute: Hasher, window: nat, s: State, z: seq<Item>)
    requires s.res.OK()
  {
    Fill(compute, window, s.(rest := FillKept(compute, window, s) + z)) ==
    Fill(compute, window, s).(rest := z)
  }

  lemma SkipsAbsorbed(compute: Hasher, window: nat, s: State, z: seq<Item>)
    requires s.res.OK() && |s.pending| < window && s.rest != [] && s.rest[0].Line?
    requires Absorbed(compute, s, s.rest[0])
    requires Skips(compute, window, Read(compute, s), z)
    ensures Skips(compute, window, s, z)
  {
    var t := Read(compute, s);
    var kept := FillKept(compute, window, s);
    assert kept == FillKept(compute, window, t);
    assert s.(rest := kept + z) == t.(rest := kept + z);
    assert Fill(compute, window, s) == Fill(compute, window, t);
  }

  lemma SkipsKept(compute: Hasher, window: nat, s: State, z: seq<Item>)
    requires s.res.OK() && |s.pending| < window && s.rest != [] && s.rest[0].Line?
    requires !Absorbed(compute, s, s.rest[0])
    requires Read(compute, s).res.OK() ==> Skips(compute, window, Read(compute, s), z)
    ensures Skips(compute, window, s, z)
  {
    var t := Read(compute, s);
    var more := if t.res.OK() then FillKept(compute, window, t) else [];
    assert FillKept(compute, window, s) == [s.rest[0]] + more;
    assert FillKept(compute, window, s) + z == [s.rest[0]] + (more + z);
    assert !t.res.OK() ==> more + z == z;
    FillHead(compute, window, s, more + z);
  }

  lemma {:induction false} FillSkips(compute: Hasher, window: nat, s: State, z: seq<Item>)
    requires s.res.OK()
    requires Fill(compute, window, s).rest == [] ==> z == []
    ensures Skips(compute, window, s, z)
    decreases |s.rest|
  {
    var kept := FillKept(compute, window, s);
    if |s.pending| >= window || s.rest == [] {
      assert kept + z == z;
    } else if s.rest[0].Damage? {
      assert kept + z == [Damage] + z;
    } else {
      var t := Read(compute, s);
      if t.res.OK() {
        FillSkips(compute, window, t, z);
      }
      if Absorbed(compute, s, s.rest[0]) {
        SkipsAbsorbed(compute, window, s, z);
      } else {
        SkipsKept(compute, window, s, z);
      }
    }
  }

  lemma {:induction false} RunKeptEmpty(compute: Hasher, window: nat, s: State)
    requires s.res.OK() && s.rest == []
    ensures RunKept(compute, window, s) == []
    decreases |s.pending|
  {
    if s.next in s.pending && Fault(compute, s.prev, s.pending[s.next]).None? {
      PendingShrinks(s.pending, s.next);
      RunKeptEmpty(compute, window, Consume(s));
    }
  }

  lemma {:induction false} RunSkips(compute: Hasher, window: nat, s: State)
    requires s.res.OK()
    ensures Run(compute, window, s.(rest := RunKept(compute, window, s))) == Run(compute, window, s)
    decreases |s.rest| + |s.pending|
  {
    if s.next in s.pending && Fault(compute, s.prev, s.pending[s.next]).None? {
      var c := Consume(s);
      PendingShrinks(s.pending, s.next);
      var t := Fill(compute, window, c);
      var z := if t.res.OK() then RunKept(compute, window, t) else t.rest;
      if t.res.OK() && t.rest == [] {
        RunKeptEmpty(compute, window, t);
      }
      FillSkips(compute, window, c, z);
      if t.res.OK() {
        RunSkips(compute, window, t);
      }
    }
  }

  /** Dropping every absorbed copy leaves the whole result as it was, a break
      and its position included. */
  lemma RedeliveryNeutral(compute: Hasher, window: nat, items: seq<Item>, opts: Opts)
    ensures Verify(compute, window, Survivors(compute, window, items, opts), opts) ==
            Verify(compute, window, items, opts)
  {
    var s0 := Start(items);
    var s := Fill(compute, window, s0);
    var more := s.res.OK() && s.pending != map[] && Begin(opts, s).res.OK();
    var z := if more then RunKept(compute, window, Begin(opts, s)) else s.rest;
    if more && s.rest == [] {
      RunKeptEmpty(compute, window, Begin(opts, s));
    }
    FillSkips(compute, window, s0, z);
    if more {
      RunSkips(compute, window, Begin(opts, s));
    }
  }

  // ---------------------------------------------------------------------
  // Which lines survive a source that is passed.

  /** The first copies of rs, in the order they arrived. */
  function Arrivals(met: map<int, Rec>, rs: seq<Rec>): seq<Rec>
    decreases |rs|
  {
    if rs == [] then []
    else if rs[0].seqNo in met then Arrivals(met, rs[1..])
    else [rs[0]] + Arrivals(Add(met, rs[0]), rs[1..])
  }

  lemma {:induction false} ArrivalsCollect(met: map<int, Rec>, rs: seq<Rec>)
    ensures Collect(met, Arrivals(met, rs)) == Collect(met, rs)
    decreases |rs|
  {
    if rs != [] {
      var m := Add(met, rs[0]);
      ArrivalsCollect(m, rs[1..]);
      var a := Arrivals(met, rs);
      if rs[0].seqNo !in met {
        assert a[0] == rs[0] && a[1..] == Arrivals(m, rs[1..]);
      }
    }
  }

  lemma {:induction false} ArrivalsTimely(compute: Hasher, window: nat, start: int, met: map<int, Rec>, rs: seq<Rec>)
    requires AllTimely(compute, window, start, met, rs)
    ensures AllTimely(compute, window, start, met, Arrivals(met, rs))
    decreases |rs|
  {
    if rs != [] {
      var m := Add(met, rs[0]);
      ArrivalsTimely(compute, window, start, m, rs[1..]);
      var a := Arrivals(met, rs);
      if rs[0].seqNo !in met {
        assert a[0] == rs[0] && a[1..] == Arrivals(m, rs[1..]);
      }
    }
  }

  /** A source that is passed is passed with the same result once its repeats,
      all of them genuine, are taken out. */
  lemma RepeatsRemovable(compute: Hasher, window: nat, rs: seq<Rec>, opts: Opts)
    requires window > 0 && Verify(compute, window, Items(rs), opts).OK()
    ensures Verify(compute, window, Items(Arrivals(map[], rs)), opts) == Verify(compute, window, Items(rs), opts)
    ensures |Arrivals(map[], rs)| == Verify(compute, window, Items(rs), opts).records
  {
    var a := Arrivals(map[], rs);
    VerifyExact(compute, window, rs, opts);
    if rs != [] {
      ArrivalsCollect(map[], rs);
      ArrivalsTimely(compute, window, Min(Firsts(rs).Keys), map[], rs);
      ArrivalsCount(map[], rs);
      assert a != [];
      VerifyExact(compute, window, a, opts);
    }
  }

  lemma {:induction false} ArrivalsCount(met: map<int, Rec>, rs: seq<Rec>)
    ensures |met| + |Arrivals(met, rs)| == |Collect(met, rs)|
    decreases |rs|
  {
    if rs != [] {
      ArrivalsCount(Add(met, rs[0]), rs[1..]);
    }
  }
}
