/** What any run of the node's event queue keeps, when it keeps order, and the two
    ways it does not. */
module EventRuns {
  import opened Prelude
  import opened Events

  /** added: the events queued, in order; delivered: what left the queue because it
      was accepted; lost: what neither buffer kept; chain: what the control plane
      recorded. */
  datatype World<E> = World(
    q: Queue<E>, added: seq<E>, delivered: seq<Item<E>>, lost: seq<Item<E>>, chain: seq<Item<E>>)

  /** What the outside decides in one delivery. */
  datatype Fate<!E> = Fate(
    opens: bool, removes: bool, reaches: bool, answers: bool, named: Item<E> -> bool, acts: nat -> bool)

  datatype Step<!E> = Queued(e: E, writes: nat -> bool) | Cycle(fate: Fate<E>)

  function Deliver<E>(sp: Spool<E>, w: World<E>, f: Fate<E>): World<E> {
    var t := Take(sp, w.q, f.opens, f.removes);
    var batch := Batch(t);
    if batch == [] || !f.reaches then w.(q := t)
    else
      var (r, chain) := Accept(batch, f.named, f.acts, 0, w.chain);
      var w := w.(q := t, chain := chain);
      if !r.counted || !f.answers then w
      else w.(q := Delivered(t, r.recorded), delivered := w.delivered + batch[..r.recorded])
  }

  function Do<E>(sp: Spool<E>, w: World<E>, s: Step<E>): World<E> {
    match s
    case Queued(e, writes) =>
      var (q, gone) := Add(sp, w.q, e, writes);
      w.(q := q, added := w.added + [e], lost := w.lost + gone)
    case Cycle(f) => Deliver(sp, w, f)
  }

  function Run<E>(sp: Spool<E>, steps: seq<Step<E>>): World<E>
    decreases |steps|
  {
    if steps == [] then World(Queue([], [], 0), [], [], [], [])
    else Do(sp, Run(sp, steps[..|steps| - 1]), steps[|steps| - 1])
  }

  /** Everything that is somewhere: delivered, on disk, or in memory. */
  function Kept<E>(w: World<E>): seq<Item<E>> {
    w.delivered + (w.q.file + w.q.items)
  }

  function Ordinary<E>(s: seq<Item<E>>): seq<E> {
    if s == [] then []
    else
      var t := Ordinary(s[..|s| - 1]);
      match s[|s| - 1] case Event(e) => t + [e] case Dropped(_) => t
  }

  function Counted<E>(s: seq<Item<E>>): nat {
    if s == [] then 0
    else Counted(s[..|s| - 1]) + match s[|s| - 1] case Event(_) => 0 case Dropped(n) => n
  }

  lemma {:induction false} OrdinaryConcat<E>(a: seq<Item<E>>, b: seq<Item<E>>)
    ensures Ordinary(a + b) == Ordinary(a) + Ordinary(b) && Counted(a + b) == Counted(a) + Counted(b)
    decreases |b|
  {
    if b == [] {
      assert a + b == a;
    } else {
      OrdinaryConcat(a, b[..|b| - 1]);
      assert (a + b)[..|a + b| - 1] == a + b[..|b| - 1];
    }
  }

  lemma OrdinaryOne<E>(it: Item<E>)
    ensures Ordinary([it]) == (match it case Event(e) => [e] case Dropped(_) => [])
    ensures Counted([it]) == match it case Event(_) => 0 case Dropped(n) => n
  {
    assert [it][..0] == [];
  }

  // ---------------------------------------------------------------------
  // Nothing vanishes uncounted.

  /** Every spilled line is one the reader of the file can take. */
  predicate Short<E>(sp: Spool<E>, s: seq<Item<E>>) {
    forall i | 0 <= i < |s| :: sp.size(s[i]) < LINE_LIMIT
  }

  lemma {:induction false} ShortReadable<E>(sp: Spool<E>, file: seq<Item<E>>)
    ensures Readable(sp, file) == file <==> Short(sp, file)
    ensures Readable(sp, file) <= file
  {
    if file != [] && sp.size(file[0]) < LINE_LIMIT {
      ShortReadable(sp, file[1..]);
      assert file == [file[0]] + file[1..];
      assert Readable(sp, file) == file ==> Readable(sp, file[1..]) == file[1..] by {
        assert Readable(sp, file)[1..] == Readable(sp, file[1..]);
      }
      if Short(sp, file[1..]) {
        forall i | 0 <= i < |file| ensures sp.size(file[i]) < LINE_LIMIT {
          assert i > 0 ==> file[i] == file[1..][i - 1];
        }
      }
      if Short(sp, file) {
        forall i | 0 <= i < |file[1..]| ensures sp.size(file[1..][i]) < LINE_LIMIT {
          assert file[1..][i] == file[i + 1];
        }
      }
    }
  }

  /** Reading the file back loses nothing exactly when it is not read back at all or
      no line in it is too long; one that is takes everything after it along. */
  lemma RefillExact<E>(sp: Spool<E>, q: Queue<E>, opens: bool, removes: bool)
    ensures var t := Refill(sp, q, opens, removes);
      t.file + t.items == q.file + q.items <==> !Refills(sp, q, opens, removes) || Short(sp, q.file)
  {
    ShortReadable(sp, q.file);
    if Refills(sp, q, opens, removes) {
      var t := Refill(sp, q, opens, removes);
      assert t.file + t.items == Readable(sp, q.file) + q.items;
      if |t.file + t.items| == |q.file + q.items| {
        assert |Readable(sp, q.file)| == |q.file|;
      }
    }
  }

  lemma {:induction false} ShrinkLength<E>(sp: Spool<E>, q: Queue<E>, writes: nat -> bool, k: nat)
    ensures var (t, lost) := Shrink(sp, q, writes, k);
      && t.dropped == q.dropped + |lost|
      && |t.items| == (if |q.items| <= IN_MEMORY then |q.items| else IN_MEMORY)
      && t.items == q.items[|q.items| - |t.items|..]
    decreases |q.items|
  {
    if |q.items| > IN_MEMORY {
      var rest := q.(items := q.items[1..]);
      ShrinkLength(sp, SpillOne(sp, rest, q.items[0], writes(k)), writes, k + 1);
    }
  }

  lemma MoveOne<E>(file: seq<Item<E>>, it: Item<E>, rest: seq<Item<E>>)
    ensures file + ([it] + rest) == (file + [it]) + rest
    ensures multiset(file + ([it] + rest)) == multiset(file + rest) + multiset{it}
    ensures Counted(file + ([it] + rest)) == Counted(file + rest) + Counted([it])
  {
    assert file + ([it] + rest) == (file + [it]) + rest;
    assert multiset(file + [it]) == multiset(file) + multiset{it};
    OrdinaryConcat(file, [it] + rest);
    OrdinaryConcat([it], rest);
    OrdinaryConcat(file, rest);
  }

  /** Spilling moves items from the queue into the file, or counts them as dropped. */
  lemma {:induction false} ShrinkKeeps<E>(sp: Spool<E>, q: Queue<E>, writes: nat -> bool, k: nat)
    ensures var (t, lost) := Shrink(sp, q, writes, k);
      && multiset(t.file + t.items) + multiset(lost) == multiset(q.file + q.items)
      && Counted(t.file + t.items) + Counted(lost) == Counted(q.file + q.items)
    decreases |q.items|
  {
    hide Spills, Counted;
    if |q.items| > IN_MEMORY {
      var it := q.items[0];
      var rest := q.(items := q.items[1..]);
      var s := SpillOne(sp, rest, it, writes(k));
      var (t, lost) := Shrink(sp, s, writes, k + 1);
      ShrinkKeeps(sp, s, writes, k + 1);
      assert q.items == [it] + rest.items;
      MoveOne(q.file, it, rest.items);
      assert multiset([it] + lost) == multiset{it} + multiset(lost);
      OrdinaryConcat([it], lost);
    } else {
      NoneCounted<E>();
    }
  }

  lemma NoneCounted<E>()
    ensures Counted<E>([]) == 0
  {
  }

  /** Read back whole, the queue holds what it held, and its count of drops now stands
      in it as an item. */
  lemma TakeKeeps<E>(sp: Spool<E>, q: Queue<E>, opens: bool, removes: bool)
    requires Short(sp, q.file)
    ensures var t := Take(sp, q, opens, removes);
      var marker := if q.dropped > 0 then [Dropped(q.dropped)] else [];
      && t.file + t.items == q.file + (marker + q.items) && t.dropped == 0
      && (t.file == [] || t.file == q.file)
      && (t.file == [] <==> q.file == [] || Refills(sp, Marked(q), opens, removes))
  {
    ShortReadable(sp, q.file);
    RefillExact(sp, Marked(q), opens, removes);
  }

  // ---------------------------------------------------------------------
  // In the order of.

  ghost predicate SubSeq<T(!new)>(a: seq<T>, b: seq<T>)
    decreases |b|
  {
    a == [] ||
    (b != [] &&
      (SubSeq(a, b[..|b| - 1]) || (a[|a| - 1] == b[|b| - 1] && SubSeq(a[..|a| - 1], b[..|b| - 1]))))
  }

  lemma {:induction false} SubSeqSelf<T(!new)>(a: seq<T>)
    ensures SubSeq(a, a)
    decreases |a|
  {
    if a != [] {
      SubSeqSelf(a[..|a| - 1]);
    }
  }

  lemma {:induction false} SubSeqBoth<T(!new)>(a: seq<T>, b: seq<T>, c: seq<T>)
    requires SubSeq(a, b)
    ensures SubSeq(a + c, b + c)
    decreases |c|
  {
    if c == [] {
      assert a + c == a && b + c == b;
    } else {
      SubSeqBoth(a, b, c[..|c| - 1]);
      assert (a + c)[..|a + c| - 1] == a + c[..|c| - 1];
      assert (b + c)[..|b + c| - 1] == b + c[..|c| - 1];
    }
  }

  lemma {:induction false} SubSeqMore<T(!new)>(a: seq<T>, b: seq<T>, c: seq<T>)
    requires SubSeq(a, b)
    ensures SubSeq(a, b + c)
    decreases |c|
  {
    if c == [] {
      assert b + c == b;
    } else {
      SubSeqMore(a, b, c[..|c| - 1]);
      assert (b + c)[..|b + c| - 1] == b + c[..|c| - 1];
    }
  }

  lemma {:induction false} SubSeqDrop<T(!new)>(a: seq<T>, x: T, c: seq<T>, b: seq<T>)
    requires SubSeq(a + ([x] + c), b)
    ensures SubSeq(a + c, b)
    decreases |b|
  {
    var whole := a + ([x] + c);
    if !SubSeq(whole, b[..|b| - 1]) {
      if c == [] {
        assert whole[..|whole| - 1] == a + c;
      } else {
        assert whole[..|whole| - 1] == a + ([x] + c[..|c| - 1]);
        SubSeqDrop(a, x, c[..|c| - 1], b[..|b| - 1]);
        assert (a + c)[..|a + c| - 1] == a + c[..|c| - 1];
      }
    } else {
      SubSeqDrop(a, x, c, b[..|b| - 1]);
    }
  }

  /** Spilling keeps the order of what is left. */
  lemma {:induction false} ShrinkOrder<E(!new)>(sp: Spool<E>, q: Queue<E>, writes: nat -> bool, k: nat, before: seq<Item<E>>, all: seq<E>)
    requires SubSeq(Ordinary(before + (q.file + q.items)), all)
    ensures var t := Shrink(sp, q, writes, k).0; SubSeq(Ordinary(before + (t.file + t.items)), all)
    decreases |q.items|
  {
    hide Spills, SubSeq, Ordinary;
    if |q.items| > IN_MEMORY {
      var it := q.items[0];
      var rest := q.(items := q.items[1..]);
      var s := SpillOne(sp, rest, it, writes(k));
      assert q.items == [it] + rest.items;
      MoveOne(q.file, it, rest.items);
      assert before + (q.file + q.items) == (before + q.file) + ([it] + rest.items);
      OneLess(before + q.file, it, rest.items, all);
      assert before + (q.file + rest.items) == (before + q.file) + rest.items;
      ShrinkOrder(sp, s, writes, k + 1, before, all);
    }
  }

  lemma OneLess<E(!new)>(a: seq<Item<E>>, it: Item<E>, c: seq<Item<E>>, all: seq<E>)
    requires SubSeq(Ordinary(a + ([it] + c)), all)
    ensures SubSeq(Ordinary(a + c), all)
  {
    hide SubSeq, Ordinary;
    OrdinaryConcat(a, [it] + c);
    OrdinaryConcat([it], c);
    OrdinaryConcat(a, c);
    OrdinaryOne(it);
    if it.Event? {
      SubSeqDrop(Ordinary(a), it.e, Ordinary(c), all);
    } else {
      assert [] + Ordinary(c) == Ordinary(c);
    }
  }

  // ---------------------------------------------------------------------
  // Whole runs.

  /** No drop count up to most is too long for the reader of the spill file. */
  ghost predicate MarkersFit<E>(sp: Spool<E>, most: nat) {
    forall n: nat | n <= most :: sp.size(Dropped(n)) < LINE_LIMIT
  }

  /** No event is too long for the reader of the spill file. */
  ghost predicate Fits<E>(sp: Spool<E>, steps: seq<Step<E>>) {
    forall i | 0 <= i < |steps| && steps[i].Queued? :: sp.size(Event(steps[i].e)) < LINE_LIMIT
  }

  /** How often an event stands among items. */
  function Times<E(==)>(s: seq<Item<E>>, e: E): nat {
    multiset(s)[Event(e)]
  }

  /** Each event is kept or counted as lost as often as it was queued; as many items
      were lost as the counts say; and a loss is still on record somewhere. */
  ghost predicate Accounted<E(!new)>(sp: Spool<E>, w: World<E>) {
    && (forall e :: Times(Kept(w), e) + Times(w.lost, e) == multiset(w.added)[e])
    && |w.lost| == w.q.dropped + Counted(Kept(w)) + Counted(w.lost)
    && (w.lost != [] ==> w.q.dropped + Counted(Kept(w)) > 0)
    && Short(sp, w.q.file) && Short(sp, w.q.items)
    && SubSeq(w.delivered, w.chain)
  }

  lemma ShortMembers<E>(sp: Spool<E>, s: seq<Item<E>>, t: seq<Item<E>>)
    requires Short(sp, s) && forall x | x in t :: x in s
    ensures Short(sp, t)
  {
    forall i | 0 <= i < |t| ensures sp.size(t[i]) < LINE_LIMIT {
      assert t[i] in s;
    }
  }

  lemma ShrinkShort<E>(sp: Spool<E>, q: Queue<E>, writes: nat -> bool)
    requires Short(sp, q.file) && Short(sp, q.items)
    ensures var t := Shrink(sp, q, writes, 0).0; Short(sp, t.file) && Short(sp, t.items)
  {
    var (t, lost) := Shrink(sp, q, writes, 0);
    ShrinkKeeps(sp, q, writes, 0);
    assert Short(sp, q.file + q.items);
    forall x | x in t.file + t.items ensures x in q.file + q.items {
      assert x in multiset(t.file + t.items) + multiset(lost);
      assert x in multiset(q.file + q.items);
    }
    ShortMembers(sp, q.file + q.items, t.file);
    ShortMembers(sp, q.file + q.items, t.items);
  }

  lemma TimesConcat<E>(a: seq<Item<E>>, b: seq<Item<E>>, x: E)
    ensures Times(a + b, x) == Times(a, x) + Times(b, x)
  {
  }

  /** Where an event can be found after one was queued and some were spilled or lost. */
  lemma QueuedTimes<E(!new)>(w: World<E>, file: seq<Item<E>>, items: seq<Item<E>>, gone: seq<Item<E>>, e: E, x: E)
    requires Times(Kept(w), x) + Times(w.lost, x) == multiset(w.added)[x]
    requires multiset(file + items) + multiset(gone) == multiset(w.q.file + (w.q.items + [Event(e)]))
    ensures Times(w.delivered + (file + items), x) + Times(w.lost + gone, x) == multiset(w.added + [e])[x]
  {
    assert Times(file + items, x) + Times(gone, x) == Times(w.q.file + (w.q.items + [Event(e)]), x) by {
      assert (multiset(file + items) + multiset(gone))[Event(x)] == multiset(file + items)[Event(x)] + multiset(gone)[Event(x)];
    }
    assert Times([Event(e)], x) == (if e == x then 1 else 0);
    assert multiset(w.added + [e])[x] == multiset(w.added)[x] + if e == x then 1 else 0;
    hide Times;
    assert w.q.file + (w.q.items + [Event(e)]) == (w.q.file + w.q.items) + [Event(e)];
    TimesConcat(w.q.file + w.q.items, [Event(e)], x);
    TimesConcat(w.delivered, file + items, x);
    TimesConcat(w.delivered, w.q.file + w.q.items, x);
    TimesConcat(w.lost, gone, x);
  }

  lemma QueuedCounted<E>(w: World<E>, file: seq<Item<E>>, items: seq<Item<E>>, gone: seq<Item<E>>, e: E)
    requires Counted(file + items) + Counted(gone) == Counted(w.q.file + (w.q.items + [Event(e)]))
    ensures Counted(w.delivered + (file + items)) + Counted(w.lost + gone) == Counted(Kept(w)) + Counted(w.lost)
    ensures gone == [] ==> Counted(w.delivered + (file + items)) == Counted(Kept(w))
  {
    hide Counted;
    assert w.q.file + (w.q.items + [Event(e)]) == (w.q.file + w.q.items) + [Event(e)];
    OrdinaryConcat(w.q.file + w.q.items, [Event(e)]);
    OrdinaryOne(Event(e));
    OrdinaryConcat(w.delivered, w.q.file + w.q.items);
    OrdinaryConcat(w.delivered, file + items);
    OrdinaryConcat(w.lost, gone);
    NoneCounted<E>();
  }

  lemma QueuedKeeps<E(!new)>(sp: Spool<E>, w: World<E>, e: E, writes: nat -> bool)
    requires Accounted(sp, w) && sp.size(Event(e)) < LINE_LIMIT
    ensures Accounted(sp, Do(sp, w, Queued(e, writes)))
  {
    hide Shrink, Counted, SubSeq, Times;
    var q := w.q.(items := w.q.items + [Event(e)]);
    var (t, gone) := Shrink(sp, q, writes, 0);
    var w' := Do(sp, w, Queued(e, writes));
    ShrinkKeeps(sp, q, writes, 0);
    ShrinkLength(sp, q, writes, 0);
    ShrinkShort(sp, q, writes);
    QueuedCounted(w, t.file, t.items, gone, e);
    forall x ensures Times(Kept(w'), x) + Times(w'.lost, x) == multiset(w'.added)[x] {
      QueuedTimes(w, t.file, t.items, gone, e, x);
    }
  }

  lemma DeliverForm<E>(sp: Spool<E>, w: World<E>, f: Fate<E>) returns (k: nat, m: nat)
    ensures var t := Take(sp, w.q, f.opens, f.removes);
      && k <= m <= |t.items| && (k == 0 || k == m)
      && Deliver(sp, w, f) == w.(q := t.(items := t.items[k..]),
                                 delivered := w.delivered + t.items[..k], chain := w.chain + t.items[..m])
  {
    var t := Take(sp, w.q, f.opens, f.removes);
    var batch := Batch(t);
    k, m := 0, 0;
    assert w.delivered + t.items[..0] == w.delivered && w.chain + t.items[..0] == w.chain && t.items[0..] == t.items;
    if batch != [] && f.reaches {
      var r := Accept(batch, f.named, f.acts, 0, w.chain).0;
      AcceptExact(batch, f.named, f.acts, 0, w.chain);
      m := r.recorded;
      assert batch[..m] == t.items[..m];
      if r.counted && f.answers {
        k := m;
      }
    }
  }

  lemma CycleKeeps<E(!new)>(sp: Spool<E>, w: World<E>, f: Fate<E>)
    requires Accounted(sp, w) && MarkersFit(sp, w.q.dropped)
    ensures Accounted(sp, Do(sp, w, Cycle(f)))
  {
    hide Take, Counted, SubSeq, Deliver, Times;
    var t := Take(sp, w.q, f.opens, f.removes);
    var marker: seq<Item<E>> := if w.q.dropped > 0 then [Dropped(w.q.dropped)] else [];
    TakeKeeps(sp, w.q, f.opens, f.removes);
    var k, m := DeliverForm(sp, w, f);
    var w' := Deliver(sp, w, f);
    CycleShort(sp, w, t, marker);
    ShortMembers(sp, t.items, t.items[k..]);
    forall x ensures Times(Kept(w'), x) + Times(w'.lost, x) == multiset(w'.added)[x] {
      CycleTimes(w, t, marker, k, x);
    }
    CycleCounted(w, t, marker, k);
    SubSeqMoved(w, t, k, m);
  }

  lemma CycleShort<E>(sp: Spool<E>, w: World<E>, t: Queue<E>, marker: seq<Item<E>>)
    requires Short(sp, w.q.file) && Short(sp, w.q.items) && Short(sp, marker)
    requires t.file + t.items == w.q.file + (marker + w.q.items)
    ensures Short(sp, t.file) && Short(sp, t.items)
  {
    var all := w.q.file + (marker + w.q.items);
    assert Short(sp, all);
    ShortMembers(sp, all, t.file + t.items);
    assert forall x | x in t.file :: x in t.file + t.items;
    assert forall x | x in t.items :: x in t.file + t.items;
    ShortMembers(sp, t.file + t.items, t.file);
    ShortMembers(sp, t.file + t.items, t.items);
  }

  lemma CycleTimes<E>(w: World<E>, t: Queue<E>, marker: seq<Item<E>>, k: nat, x: E)
    requires t.file + t.items == w.q.file + (marker + w.q.items) && k <= |t.items|
    requires marker == [] || (|marker| == 1 && marker[0].Dropped?)
    ensures Times((w.delivered + t.items[..k]) + (t.file + t.items[k..]), x) == Times(Kept(w), x)
  {
    assert Times(marker, x) == 0;
    hide Times;
    assert t.items == t.items[..k] + t.items[k..];
    TimesConcat(t.items[..k], t.items[k..], x);
    TimesConcat(t.file, t.items, x);
    TimesConcat(w.q.file, marker + w.q.items, x);
    TimesConcat(marker, w.q.items, x);
    TimesConcat(w.delivered + t.items[..k], t.file + t.items[k..], x);
    TimesConcat(w.delivered, t.items[..k], x);
    TimesConcat(t.file, t.items[k..], x);
    TimesConcat(w.delivered, w.q.file + w.q.items, x);
    TimesConcat(w.q.file, w.q.items, x);
  }

  lemma CycleCounted<E>(w: World<E>, t: Queue<E>, marker: seq<Item<E>>, k: nat)
    requires t.file + t.items == w.q.file + (marker + w.q.items) && k <= |t.items|
    requires marker == if w.q.dropped > 0 then [Dropped(w.q.dropped)] else []
    ensures Counted((w.delivered + t.items[..k]) + (t.file + t.items[k..])) == Counted(Kept(w)) + w.q.dropped
  {
    hide Counted;
    OrdinaryConcat(w.delivered + t.items[..k], t.file + t.items[k..]);
    OrdinaryConcat(w.delivered, t.items[..k]);
    OrdinaryConcat(t.file, t.items[k..]);
    OrdinaryConcat(t.items[..k], t.items[k..]);
    assert t.items == t.items[..k] + t.items[k..];
    OrdinaryConcat(t.file, t.items);
    OrdinaryConcat(w.q.file, marker + w.q.items);
    OrdinaryConcat(marker, w.q.items);
    OrdinaryConcat(w.q.file, w.q.items);
    OrdinaryConcat(w.delivered, w.q.file + w.q.items);
    OrdinaryOne<E>(Dropped(w.q.dropped));
    NoneCounted<E>();
  }

  /** What leaves the queue was recorded first. */
  lemma SubSeqMoved<E(!new)>(w: World<E>, t: Queue<E>, k: nat, m: nat)
    requires SubSeq(w.delivered, w.chain) && k <= m <= |t.items| && (k == 0 || k == m)
    ensures SubSeq(w.delivered + t.items[..k], w.chain + t.items[..m])
  {
    hide SubSeq;
    if k == m {
      SubSeqBoth(w.delivered, w.chain, t.items[..k]);
    } else {
      assert w.delivered + t.items[..k] == w.delivered;
      SubSeqMore(w.delivered, w.chain, t.items[..m]);
    }
  }

  /** How many items there are and were. */
  function Size<E>(w: World<E>): nat {
    |Kept(w)| + |w.lost|
  }

  lemma QueuedSize<E>(sp: Spool<E>, w: World<E>, e: E, writes: nat -> bool)
    ensures Size(Do(sp, w, Queued(e, writes))) == Size(w) + 1
  {
    hide Shrink;
    var q := w.q.(items := w.q.items + [Event(e)]);
    var (t, gone) := Shrink(sp, q, writes, 0);
    ShrinkKeeps(sp, q, writes, 0);
    assert |multiset(t.file + t.items)| + |multiset(gone)| == |multiset(q.file + q.items)|;
  }

  lemma CycleSize<E>(sp: Spool<E>, w: World<E>, f: Fate<E>)
    requires Short(sp, w.q.file)
    ensures Size(Do(sp, w, Cycle(f))) <= Size(w) + 1
  {
    hide Take, Deliver;
    TakeKeeps(sp, w.q, f.opens, f.removes);
    var k, m := DeliverForm(sp, w, f);
    var t := Take(sp, w.q, f.opens, f.removes);
    assert |t.file + t.items| <= |w.q.file| + 1 + |w.q.items|;
  }

  lemma DroppedFew<E(!new)>(sp: Spool<E>, w: World<E>)
    requires Accounted(sp, w)
    ensures w.q.dropped <= Size(w) && Short(sp, w.q.file)
  {
    hide Short, SubSeq, Times;
  }

  /** Over every run of queueing and delivery whose events are short enough for the
      reader of the file: each event is delivered, on disk, in memory or lost exactly
      as often as it was queued; the losses are exactly what the drop counts add up to,
      and at least one count is still in the queue or was delivered; and what left the
      node is, in order, part of what the chain recorded. */
  lemma {:induction false} RunAccounts<E(!new)>(sp: Spool<E>, steps: seq<Step<E>>)
    requires MarkersFit(sp, |steps|) && Fits(sp, steps)
    ensures Accounted(sp, Run(sp, steps)) && Size(Run(sp, steps)) <= |steps|
    decreases |steps|
  {
    if steps == [] {
      NoneCounted<E>();
    } else {
      hide Accounted, Do;
      var n := |steps| - 1;
      assert Fits(sp, steps[..n]);
      RunAccounts(sp, steps[..n]);
      var w := Run(sp, steps[..n]);
      DroppedFew(sp, w);
      match steps[n]
      case Queued(e, writes) =>
        QueuedKeeps(sp, w, e, writes);
        QueuedSize(sp, w, e, writes);
      case Cycle(f) =>
        CycleKeeps(sp, w, f);
        CycleSize(sp, w, f);
    }
  }

  // ---------------------------------------------------------------------
  // The bound on the disk.

  /** Without its last line the file is under the bound. */
  predicate Bounded<E>(sp: Spool<E>, file: seq<Item<E>>) {
    file == [] || FileSize(sp, file[..|file| - 1]) < SPILL_BYTES
  }

  lemma {:induction false} ShrinkBounded<E>(sp: Spool<E>, q: Queue<E>, writes: nat -> bool, k: nat)
    requires Bounded(sp, q.file)
    ensures Bounded(sp, Shrink(sp, q, writes, k).0.file)
    decreases |q.items|
  {
    if |q.items| > IN_MEMORY {
      var rest := q.(items := q.items[1..]);
      assert (q.file + [q.items[0]])[..|q.file|] == q.file;
      ShrinkBounded(sp, SpillOne(sp, rest, q.items[0], writes(k)), writes, k + 1);
    }
  }

  lemma BoundedSize<E>(sp: Spool<E>, file: seq<Item<E>>, longest: nat)
    requires Bounded(sp, file) && forall it :: sp.size(it) <= longest
    ensures FileSize(sp, file) <= SPILL_BYTES + longest
  {
  }

  /** Over every run, whatever is queued and fails, the spill file stays under its bound
      but for one line. */
  lemma {:induction false} SpillBounded<E>(sp: Spool<E>, steps: seq<Step<E>>, longest: nat)
    requires forall it :: sp.size(it) <= longest
    ensures Bounded(sp, Run(sp, steps).q.file) && FileSize(sp, Run(sp, steps).q.file) <= SPILL_BYTES + longest
    decreases |steps|
  {
    if steps != [] {
      var n := |steps| - 1;
      SpillBounded(sp, steps[..n], longest);
      StepBounded(sp, Run(sp, steps[..n]), steps[n]);
    }
    BoundedSize(sp, Run(sp, steps).q.file, longest);
  }

  lemma StepBounded<E>(sp: Spool<E>, w: World<E>, step: Step<E>)
    requires Bounded(sp, w.q.file)
    ensures Bounded(sp, Do(sp, w, step).q.file)
  {
    hide Shrink, Accept, Readable, Bounded;
    match step
    case Queued(e, writes) => ShrinkBounded(sp, w.q.(items := w.q.items + [Event(e)]), writes, 0);
    case Cycle(f) =>
      NoneBounded(sp);
      var k, m := DeliverForm(sp, w, f);
  }

  lemma NoneBounded<E>(sp: Spool<E>)
    ensures Bounded(sp, [])
  {
  }

  // ---------------------------------------------------------------------
  // Order.

  /** Nothing waits on disk while this batch is taken from memory. */
  predicate Orderly<E>(sp: Spool<E>, q: Queue<E>, f: Fate<E>) {
    q.file == [] || Refills(sp, Marked(q), f.opens, f.removes)
  }

  /** Nothing is accepted, or nothing waits on disk. */
  predicate InTurn<E(==)>(sp: Spool<E>, w: World<E>, f: Fate<E>) {
    Deliver(sp, w, f).delivered == w.delivered || Orderly(sp, w.q, f)
  }

  ghost predicate AllOrderly<E>(sp: Spool<E>, steps: seq<Step<E>>)
    decreases |steps|
  {
    steps == [] ||
    (var n := |steps| - 1;
     AllOrderly(sp, steps[..n]) && (steps[n].Cycle? ==> InTurn(sp, Run(sp, steps[..n]), steps[n].fate)))
  }

  /** When no batch overtakes the file, the events delivered, spilled and queued stand
      in the order they were queued. */
  lemma {:induction false} RunOrdered<E(!new)>(sp: Spool<E>, steps: seq<Step<E>>)
    requires MarkersFit(sp, |steps|) && Fits(sp, steps) && AllOrderly(sp, steps)
    ensures var w := Run(sp, steps); SubSeq(Ordinary(Kept(w)), w.added)
    decreases |steps|
  {
    hide SubSeq, Ordinary;
    if steps == [] {
      SubSeqSelf<E>([]);
      assert Kept(Run(sp, steps)) == [];
      assert Ordinary<E>([]) == [] by { NoneOrdinary<E>(); }
    } else {
      var n := |steps| - 1;
      assert Fits(sp, steps[..n]);
      RunOrdered(sp, steps[..n]);
      RunAccounts(sp, steps[..n]);
      match steps[n]
      case Queued(e, writes) => QueuedOrdered(sp, Run(sp, steps[..n]), e, writes);
      case Cycle(f) => CycleOrdered(sp, Run(sp, steps[..n]), f);
    }
  }

  lemma NoneOrdinary<E>()
    ensures Ordinary<E>([]) == []
  {
  }

  lemma QueuedOrdered<E(!new)>(sp: Spool<E>, w: World<E>, e: E, writes: nat -> bool)
    requires SubSeq(Ordinary(Kept(w)), w.added)
    ensures var w' := Do(sp, w, Queued(e, writes)); SubSeq(Ordinary(Kept(w')), w'.added)
  {
    hide SubSeq, Ordinary;
    var q := w.q.(items := w.q.items + [Event(e)]);
    OrdinaryConcat(Kept(w), [Event(e)]);
    OrdinaryOne(Event(e));
    SubSeqBoth(Ordinary(Kept(w)), w.added, [e]);
    assert w.delivered + (q.file + q.items) == Kept(w) + [Event(e)];
    ShrinkOrder(sp, q, writes, 0, w.delivered, w.added + [e]);
  }

  lemma CycleOrdered<E(!new)>(sp: Spool<E>, w: World<E>, f: Fate<E>)
    requires SubSeq(Ordinary(Kept(w)), w.added) && Short(sp, w.q.file) && InTurn(sp, w, f)
    ensures var w' := Do(sp, w, Cycle(f)); SubSeq(Ordinary(Kept(w')), w'.added)
  {
    hide SubSeq, Ordinary, Take, Deliver, Refills, Short;
    var t := Take(sp, w.q, f.opens, f.removes);
    var marker: seq<Item<E>> := if w.q.dropped > 0 then [Dropped(w.q.dropped)] else [];
    TakeKeeps(sp, w.q, f.opens, f.removes);
    var k, m := DeliverForm(sp, w, f);
    var w' := Deliver(sp, w, f);
    KeptSame(w, t, k);
    assert w.delivered + (w.q.file + (marker + w.q.items)) == (w.delivered + w.q.file) + (marker + w.q.items);
    MarkerSilent(w.delivered + w.q.file, marker, w.q.items);
    assert Kept(w) == (w.delivered + w.q.file) + w.q.items;
  }

  lemma KeptSame<E>(w: World<E>, t: Queue<E>, k: nat)
    requires k <= |t.items| && (t.file == [] || k == 0)
    ensures (w.delivered + t.items[..k]) + (t.file + t.items[k..]) == w.delivered + (t.file + t.items)
  {
    assert t.items == t.items[..k] + t.items[k..];
  }

  lemma MarkerSilent<E>(a: seq<Item<E>>, marker: seq<Item<E>>, c: seq<Item<E>>)
    requires marker == [] || (|marker| == 1 && marker[0].Dropped?)
    ensures Ordinary(a + (marker + c)) == Ordinary(a + c)
  {
    hide Ordinary;
    if marker == [] {
      assert marker + c == c;
    } else {
      OrdinaryOne(marker[0]);
      assert marker == [marker[0]];
    }
    OrdinaryConcat(a, marker + c);
    OrdinaryConcat(marker, c);
    OrdinaryConcat(a, c);
    assert [] + Ordinary(c) == Ordinary(c);
  }

  /** A batch taken while lines wait on disk overtakes them: what is kept stays in
      order exactly when nothing was accepted or the file had been read back. */
  lemma OvertakeExact<E>(sp: Spool<E>, w: World<E>, f: Fate<E>) returns (k: nat)
    requires Short(sp, w.q.file) && NoRepeats(w.q.file + (Marked(w.q).items))
    ensures k == |Deliver(sp, w, f).delivered| - |w.delivered|
    ensures Kept(Deliver(sp, w, f)) == w.delivered + (w.q.file + Marked(w.q).items) <==> k == 0 || Orderly(sp, w.q, f)
  {
    hide Take, Deliver;
    var t := Take(sp, w.q, f.opens, f.removes);
    TakeKeeps(sp, w.q, f.opens, f.removes);
    var m;
    k, m := DeliverForm(sp, w, f);
    assert w.q.file + Marked(w.q).items == t.file + t.items by {
      assert w.q.dropped == 0 ==> [] + w.q.items == w.q.items;
    }
    Overtaken(w.delivered, t.file, t.items, k);
  }

  lemma Overtaken<T>(d: seq<T>, file: seq<T>, items: seq<T>, k: nat)
    requires k <= |items| && NoRepeats(file + items)
    ensures (d + items[..k]) + (file + items[k..]) == d + (file + items) <==> k == 0 || file == []
  {
    var kept, whole := (d + items[..k]) + (file + items[k..]), d + (file + items);
    assert items == items[..k] + items[k..];
    if k == 0 || file == [] {
      assert kept == whole;
    } else {
      assert kept[|d|] == items[0] == (file + items)[|file|];
      assert whole[|d|] == (file + items)[0];
    }
  }

  predicate NoRepeats<T(==)>(s: seq<T>) {
    forall i, j | 0 <= i < j < |s| :: s[i] != s[j]
  }

  /** Right after an overflow the queue is full, so the next batch is newer than what
      is on disk. */
  lemma OverflowOvertakes<E>(sp: Spool<E>, q: Queue<E>, e: E, writes: nat -> bool, f: Fate<E>)
    requires |q.items| >= IN_MEMORY
    ensures var t := Add(sp, q, e, writes).0;
      |t.items| == IN_MEMORY && !Refills(sp, Marked(t), f.opens, f.removes)
      && (Orderly(sp, t, f) <==> t.file == [])
  {
    ShrinkLength(sp, q.(items := q.items + [Event(e)]), writes, 0);
  }

  // ---------------------------------------------------------------------
  // A run that reorders.

  /** Queue these events, one after the other, on a disk that takes what is spilled. */
  function Queueing<E>(es: seq<E>): (steps: seq<Step<E>>)
    ensures |steps| == |es| && forall i | 0 <= i < |es| :: steps[i] == Queued(es[i], k => true)
  {
    seq(|es|, i requires 0 <= i < |es| => Queued(es[i], k => true))
  }

  lemma AddFits<E>(sp: Spool<E>, items: seq<Item<E>>, e: E, writes: nat -> bool)
    requires |items| < IN_MEMORY
    ensures Add(sp, Queue(items, [], 0), e, writes) == (Queue(items + [Event(e)], [], 0), [])
  {
  }

  lemma {:induction false} RunQueueing<E>(sp: Spool<E>, es: seq<E>)
    requires |es| <= IN_MEMORY
    ensures Run(sp, Queueing(es)) == World(Queue(AsItems(es), [], 0), es, [], [], [])
    decreases |es|
  {
    if es == [] {
      assert Queueing(es) == [] && AsItems(es) == [];
    } else {
      var n := |es| - 1;
      RunQueueing(sp, es[..n]);
      hide Add;
      AddFits(sp, AsItems(es[..n]), es[n], k => true);
      assert Queueing(es)[..n] == Queueing(es[..n]) && Queueing(es)[n] == Queued(es[n], k => true);
      assert AsItems(es) == AsItems(es[..n]) + [Event(es[n])] && es == es[..n] + [es[n]];
    }
  }

  lemma {:induction false} OrdinaryItems<E>(es: seq<E>)
    ensures Ordinary(AsItems(es)) == es
    decreases |es|
  {
    if es != [] {
      var n := |es| - 1;
      OrdinaryItems(es[..n]);
      assert AsItems(es)[..n] == AsItems(es[..n]);
    }
  }

  lemma {:induction false} SubSeqLength<T(!new)>(a: seq<T>, b: seq<T>)
    requires SubSeq(a, b)
    ensures |a| <= |b| && (|a| == |b| ==> a == b)
    decreases |b|
  {
    if a != [] {
      var b' := b[..|b| - 1];
      if SubSeq(a, b') {
        SubSeqLength(a, b');
      } else {
        SubSeqLength(a[..|a| - 1], b');
      }
    }
  }

  lemma AcceptAll<E>(batch: seq<Item<E>>, named: Item<E> -> bool, acts: nat -> bool)
    requires (forall it :: named(it)) && forall k :: acts(k)
    ensures Accept(batch, named, acts, 0, []) == (Reply(|batch|, true), [] + batch)
  {
    AcceptExact(batch, named, acts, 0, []);
    assert batch[..|batch|] == batch;
  }

  lemma OneSpilled<E>(sp: Spool<E>, es: seq<E>)
    requires |es| == IN_MEMORY + 1 && sp.on
    ensures Run(sp, Queueing(es)) == World(Queue(AsItems(es[1..]), [Event(es[0])], 0), es, [], [], [])
  {
    RunQueueing(sp, es[..IN_MEMORY]);
    assert Queueing(es)[..IN_MEMORY] == Queueing(es[..IN_MEMORY]);
    assert es == es[..IN_MEMORY] + [es[IN_MEMORY]];
    var items := AsItems(es[..IN_MEMORY]) + [Event(es[IN_MEMORY])];
    assert items == AsItems(es) && items[1..] == AsItems(es[1..]);
    var rest := Queue(items[1..], [], 0);
    assert FileSize(sp, rest.file) == 0 && Spills(sp, rest, true);
    assert [] + [items[0]] == [Event(es[0])];
    assert Shrink(sp, Queue(items, [], 0), k => true, 0) == (Queue(items[1..], [Event(es[0])], 0), []);
  }

  /** A whole run that reorders: one event more than the queue holds, and one delivery
      in which everything goes well. Nothing is lost, and the events are no longer in
      the order they were queued. */
  lemma OverflowReorders<E(!new)>(sp: Spool<E>, es: seq<E>, f: Fate<E>)
    requires |es| == IN_MEMORY + 1 && NoRepeats(es) && sp.on
    requires f.reaches && f.answers && (forall it :: f.named(it)) && forall k :: f.acts(k)
    ensures var w := Run(sp, Queueing(es) + [Cycle(f)]);
      && w.added == es && w.lost == [] && |Kept(w)| == |es|
      && Ordinary(Kept(w)) == es[1..PER_POST + 1] + [es[0]] + es[PER_POST + 1..]
      && !SubSeq(Ordinary(Kept(w)), w.added)
  {
    hide Run, Ordinary, SubSeq, Deliver, AsItems;
    var steps := Queueing(es) + [Cycle(f)];
    assert steps[..|es|] == Queueing(es);
    OneSpilled(sp, es);
    RunOn(sp, Queueing(es), f);
    DeliverFull(sp, es, f);
    var order := es[1..PER_POST + 1] + [es[0]] + es[PER_POST + 1..];
    OrdinaryItems(order);
    OutOfOrder(es);
  }

  lemma RunOn<E>(sp: Spool<E>, steps: seq<Step<E>>, f: Fate<E>)
    ensures Run(sp, steps + [Cycle(f)]) == Deliver(sp, Run(sp, steps), f)
  {
    hide Deliver;
    assert (steps + [Cycle(f)])[..|steps|] == steps;
  }

  /** What one good delivery makes of a full queue with one event on disk. */
  lemma DeliverFull<E>(sp: Spool<E>, es: seq<E>, f: Fate<E>)
    requires |es| == IN_MEMORY + 1
    requires f.reaches && f.answers && (forall it :: f.named(it)) && forall k :: f.acts(k)
    ensures var w := World(Queue(AsItems(es[1..]), [Event(es[0])], 0), es, [], [], []);
      var v := Deliver(sp, w, f);
      && v.added == es && v.lost == []
      && Kept(v) == AsItems(es[1..PER_POST + 1] + [es[0]] + es[PER_POST + 1..])
  {
    var items := AsItems(es[1..]);
    AcceptAll(items[..PER_POST], f.named, f.acts);
    hide Accept, Readable;
    var w := World(Queue(items, [Event(es[0])], 0), es, [], [], []);
    var v := Deliver(sp, w, f);
    assert v == World(Queue(items[PER_POST..], [Event(es[0])], 0), es, [] + items[..PER_POST], [], [] + items[..PER_POST]);
    var order := es[1..PER_POST + 1] + [es[0]] + es[PER_POST + 1..];
    assert |Kept(v)| == |order|;
    forall i | 0 <= i < |order| ensures Kept(v)[i] == AsItems(order)[i] {
    }
  }

  lemma OutOfOrder<E(!new)>(es: seq<E>)
    requires |es| == IN_MEMORY + 1 && NoRepeats(es)
    ensures !SubSeq(es[1..PER_POST + 1] + [es[0]] + es[PER_POST + 1..], es)
  {
    hide SubSeq;
    var order := es[1..PER_POST + 1] + [es[0]] + es[PER_POST + 1..];
    assert order[0] == es[1] != es[0];
    if SubSeq(order, es) {
      SubSeqLength(order, es);
    }
  }

  // ---------------------------------------------------------------------
  // Events queued while a batch is in flight.

  function AddAll<E>(sp: Spool<E>, q: Queue<E>, es: seq<E>, writes: nat -> nat -> bool): Queue<E>
    decreases |es|
  {
    if es == [] then q
    else
      var n := |es| - 1;
      Add(sp, AddAll(sp, q, es[..n], writes), es[n], writes(n)).0
  }

  function AsItems<E>(es: seq<E>): (items: seq<Item<E>>)
    ensures |items| == |es| && forall i | 0 <= i < |es| :: items[i] == Event(es[i])
  {
    seq(|es|, i requires 0 <= i < |es| => Event(es[i]))
  }

  /** How many items leave the front of the queue when es are added. */
  function Displaced<E>(q: Queue<E>, es: seq<E>): nat {
    if es == [] || |q.items| + |es| <= IN_MEMORY then 0 else |q.items| + |es| - IN_MEMORY
  }

  lemma {:induction false} AddAllItems<E>(sp: Spool<E>, q: Queue<E>, es: seq<E>, writes: nat -> nat -> bool)
    ensures AddAll(sp, q, es, writes).items == (q.items + AsItems(es))[Displaced(q, es)..]
    decreases |es|
  {
    if es == [] {
      assert q.items + AsItems(es) == q.items;
    } else {
      var n := |es| - 1;
      AddAllItems(sp, q, es[..n], writes);
      var before := AddAll(sp, q, es[..n], writes);
      var wide := before.(items := before.items + [Event(es[n])]);
      ShrinkLength(sp, wide, writes(n), 0);
      assert AsItems(es) == AsItems(es[..n]) + [Event(es[n])];
      assert q.items + AsItems(es) == (q.items + AsItems(es[..n])) + [Event(es[n])];
    }
  }

  /** Removing an accepted batch removes that batch exactly when none of it was
      accepted or nothing was spilled while it was in flight. Otherwise events that
      were never sent are removed, and ones the chain holds are kept. */
  lemma InFlightExact<E>(sp: Spool<E>, t: Queue<E>, es: seq<E>, writes: nat -> nat -> bool, n: nat)
    requires n <= |Batch(t)| && NoRepeats(t.items + AsItems(es))
    ensures var q := AddAll(sp, t, es, writes);
      Batch(t)[..n] + Delivered(q, n).items == q.items <==> n == 0 || Displaced(t, es) == 0
  {
    hide AddAll, NoRepeats, AsItems;
    AddAllItems(sp, t, es, writes);
    var all, s := t.items + AsItems(es), Displaced(t, es);
    var q := AddAll(sp, t, es, writes);
    assert q.items == all[s..];
    assert Batch(t)[..n] == t.items[..n] == all[..n];
    assert s > 0 ==> |q.items| == IN_MEMORY;
    CutAndDropped(all, s, n);
    assert Delivered(q, n).items == q.items[if n > |q.items| then |q.items| else n..];
  }

  /** Taking n items from the front after s were displaced takes the n that were there
      before exactly when there were none to take or none displaced. */
  lemma CutAndDropped<T>(all: seq<T>, s: nat, n: nat)
    requires s <= |all| && n <= |all| && NoRepeats(all) && (s > 0 ==> |all| > s)
    ensures var rest := all[s..];
      all[..n] + rest[if n > |rest| then |rest| else n..] == rest <==> n == 0 || s == 0
  {
    var rest := all[s..];
    var left := all[..n] + rest[if n > |rest| then |rest| else n..];
    if n == 0 {
      assert left == rest;
    } else if s == 0 {
      assert left == all;
    } else {
      assert left[0] == all[0] && rest[0] == all[s];
    }
  }
}
