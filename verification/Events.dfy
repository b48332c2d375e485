/** The node's bounded event queue, its spill file, and the endpoint that takes a
    prefix of each batch into the audit chain. */
module Events {
  import opened Prelude

  const IN_MEMORY: nat := 256
  const SPILL_BYTES: nat := 0x40_0000
  const PER_POST: nat := 64
  /** The longest line the reader of the spill file takes is one byte under this. */
  const LINE_LIMIT: nat := 0x10_0000

  /** What is queued: an event, or the report that some were dropped. */
  datatype Item<E> = Event(e: E) | Dropped(count: nat)

  /** Whether a spill file is configured, and how long an item's line is. */
  datatype Spool<!E> = Spool(on: bool, size: Item<E> -> nat)

  /** items is oldest first; file holds the spilled lines, oldest first. */
  datatype Queue<E> = Queue(items: seq<Item<E>>, file: seq<Item<E>>, dropped: nat)

  /** Each line ends in a newline. */
  function FileSize<E>(sp: Spool<E>, file: seq<Item<E>>): nat {
    if file == [] then 0 else FileSize(sp, file[..|file| - 1]) + sp.size(file[|file| - 1]) + 1
  }

  predicate Spills<E>(sp: Spool<E>, q: Queue<E>, writes: bool) {
    sp.on && FileSize(sp, q.file) < SPILL_BYTES && writes
  }

  function SpillOne<E>(sp: Spool<E>, q: Queue<E>, it: Item<E>, writes: bool): Queue<E> {
    if Spills(sp, q, writes) then q.(file := q.file + [it]) else q.(dropped := q.dropped + 1)
  }

  /** Spills from the front until the queue fits; the second part is what neither
      buffer kept. */
  function Shrink<E>(sp: Spool<E>, q: Queue<E>, writes: nat -> bool, k: nat): (Queue<E>, seq<Item<E>>)
    decreases |q.items|
  {
    if |q.items| <= IN_MEMORY then (q, [])
    else
      var it := q.items[0];
      var rest := q.(items := q.items[1..]);
      var (t, lost) := Shrink(sp, SpillOne(sp, rest, it, writes(k)), writes, k + 1);
      (t, if Spills(sp, rest, writes(k)) then lost else [it] + lost)
  }

  function Add<E>(sp: Spool<E>, q: Queue<E>, e: E, writes: nat -> bool): (Queue<E>, seq<Item<E>>) {
    Shrink(sp, q.(items := q.items + [Event(e)]), writes, 0)
  }

  /** The lines read before one too long for the reader. */
  function Readable<E>(sp: Spool<E>, file: seq<Item<E>>): seq<Item<E>> {
    if file == [] || sp.size(file[0]) >= LINE_LIMIT then []
    else [file[0]] + Readable(sp, file[1..])
  }

  predicate Refills<E>(sp: Spool<E>, q: Queue<E>, opens: bool, removes: bool) {
    sp.on && |q.items| < IN_MEMORY && opens && Readable(sp, q.file) != [] && removes
  }

  /** Reads the file back in front of the queue, and only then removes it. */
  function Refill<E>(sp: Spool<E>, q: Queue<E>, opens: bool, removes: bool): Queue<E> {
    if Refills(sp, q, opens, removes) then q.(items := Readable(sp, q.file) + q.items, file := []) else q
  }

  /** Turns a count of drops into an item of its own, ahead of what is queued. */
  function Marked<E>(q: Queue<E>): Queue<E> {
    if q.dropped > 0 then Queue([Dropped(q.dropped)] + q.items, q.file, 0) else q
  }

  function Take<E>(sp: Spool<E>, q: Queue<E>, opens: bool, removes: bool): Queue<E> {
    Refill(sp, Marked(q), opens, removes)
  }

  function Batch<E>(q: Queue<E>): seq<Item<E>> {
    if |q.items| > PER_POST then q.items[..PER_POST] else q.items
  }

  function Delivered<E>(q: Queue<E>, n: nat): Queue<E> {
    q.(items := q.items[if n > |q.items| then |q.items| else n..])
  }

  /** How the control plane answers a batch: how many it recorded, and whether it
      answered with a count at all. */
  datatype Reply = Reply(recorded: nat, counted: bool)

  /** named: the event's action is one a node may record; acts: its record commits. log is
      what the chain has been given so far: a record for each event whose record commits,
      whatever is then answered. */
  function Accept<E>(batch: seq<Item<E>>, named: Item<E> -> bool, acts: nat -> bool, i: nat, log: seq<Item<E>>)
      : (r: (Reply, seq<Item<E>>))
    requires i <= |batch|
    ensures i <= r.0.recorded <= |batch|
    decreases |batch| - i
  {
    if i == |batch| then (Reply(i, true), log)
    else if !named(batch[i]) then (Reply(i, false), log)
    else
      var after := Acted(log, batch[i], acts(i));
      if !acts(i) then (Reply(i, true), after) else Accept(batch, named, acts, i + 1, after)
  }

  function Acted<E>(log: seq<Item<E>>, it: Item<E>, commits: bool): seq<Item<E>> {
    if commits then log + [it] else log
  }

  /** The count answered is that of the events before the first one refused or not
      recorded, it is answered unless a name was refused, and the chain has been given
      exactly those events. */
  lemma {:induction false} AcceptExact<E>(batch: seq<Item<E>>, named: Item<E> -> bool, acts: nat -> bool, i: nat, log: seq<Item<E>>)
    requires i <= |batch|
    ensures var (r, after) := Accept(batch, named, acts, i, log);
      && i <= r.recorded <= |batch|
      && (forall j | i <= j < r.recorded :: named(batch[j]) && acts(j))
      && (r.recorded < |batch| ==> !named(batch[r.recorded]) || !acts(r.recorded))
      && (r.counted <==> r.recorded == |batch| || named(batch[r.recorded]))
      && after == log + batch[i..r.recorded]
    decreases |batch| - i
  {
    if i < |batch| && named(batch[i]) && acts(i) {
      AcceptExact(batch, named, acts, i + 1, log + [batch[i]]);
      var r := Accept(batch, named, acts, i, log).0;
      assert batch[i..r.recorded] == [batch[i]] + batch[i + 1..r.recorded];
    }
  }

  lemma ReadableStep<E>(sp: Spool<E>, file: seq<Item<E>>)
    ensures Readable(sp, file) ==
      if file == [] || sp.size(file[0]) >= LINE_LIMIT then [] else [file[0]] + Readable(sp, file[1..])
  {
  }

  /** The scanner over the spill file. */
  method ReadLines<E>(sp: Spool<E>, file: seq<Item<E>>) returns (buffered: seq<Item<E>>)
    ensures buffered == Readable(sp, file)
  {
    hide Readable;
    buffered := [];
    var i := 0;
    assert [] + Readable(sp, file) == Readable(sp, file) && file[0..] == file;
    while i < |file| && sp.size(file[i]) < LINE_LIMIT
      invariant 0 <= i <= |file|
      invariant Readable(sp, file) == buffered + Readable(sp, file[i..])
    {
      ReadableStep(sp, file[i..]);
      assert file[i..][1..] == file[i + 1..];
      assert buffered + ([file[i]] + Readable(sp, file[i + 1..])) == (buffered + [file[i]]) + Readable(sp, file[i + 1..]);
      buffered := buffered + [file[i]];
      i := i + 1;
    }
    ReadableStep(sp, file[i..]);
    assert buffered + [] == buffered;
  }

  class EventQueue<E(==)> {
    const spool: Spool<E>
    var queue: seq<Item<E>>
    var file: seq<Item<E>>
    var dropped: nat

    ghost function View(): Queue<E>
      reads this
    {
      Queue(queue, file, dropped)
    }

    constructor (spool: Spool<E>, file: seq<Item<E>>)
      ensures this.spool == spool && View() == Queue([], file, 0)
    {
      this.spool, queue, this.file, dropped := spool, [], file, 0;
    }

    /** Appends to the spill file, refusing once it is full. */
    method SpillTo(it: Item<E>, writes: bool) returns (ok: bool)
      modifies `file
      ensures ok == Spills(spool, old(View()), writes)
      ensures file == if ok then old(file) + [it] else old(file)
    {
      if !spool.on || FileSize(spool, file) >= SPILL_BYTES || !writes {
        return false;
      }
      file := file + [it];
      return true;
    }

    /** Queues one event, spilling the oldest while the queue is too long. */
    method Enqueue(e: E, writes: nat -> bool)
      modifies this
      ensures View() == Add(spool, old(View()), e, writes).0
    {
      queue := queue + [Event(e)];
      var k := 0;
      while |queue| > IN_MEMORY
        invariant Shrink(spool, View(), writes, k).0 == Add(spool, old(View()), e, writes).0
        decreases |queue|
      {
        var oldest := queue[0];
        queue := queue[1..];
        var ok := SpillTo(oldest, writes(k));
        if !ok {
          dropped := dropped + 1;
        }
        k := k + 1;
      }
    }

    /** Reads the spill file back when the queue has room. */
    method ReadSpill(opens: bool, removes: bool)
      modifies `queue, `file
      ensures View() == Refill(spool, old(View()), opens, removes)
    {
      if !spool.on || |queue| >= IN_MEMORY || !opens {
        return;
      }
      var buffered := ReadLines(spool, file);
      if buffered == [] || !removes {
        return;
      }
      file := [];
      queue := buffered + queue;
    }

    /** The next batch, which stays queued until it is accepted. */
    method Next(opens: bool, removes: bool) returns (batch: seq<Item<E>>)
      modifies this
      ensures View() == Take(spool, old(View()), opens, removes) && batch == Batch(View())
      ensures batch <= queue && |batch| == if |queue| < 64 then |queue| else 64
    {
      if dropped > 0 {
        queue, dropped := [Dropped(dropped)] + queue, 0;
      }
      ReadSpill(opens, removes);
      if |queue| > PER_POST {
        return queue[..PER_POST];
      }
      return queue;
    }

    /** Removes what the control plane accepted. */
    method Settle(n: nat)
      modifies `queue
      ensures View() == Delivered(old(View()), n)
    {
      var m := if n > |queue| then |queue| else n;
      queue := queue[m..];
    }
  }

  /** The endpoint: one record per event, stopping at the first that is refused. */
  method AgentEvents<E>(batch: seq<Item<E>>, named: Item<E> -> bool, acts: nat -> bool, log0: seq<Item<E>>)
      returns (r: Reply, log: seq<Item<E>>)
    ensures (r, log) == Accept(batch, named, acts, 0, log0)
    ensures forall j | 0 <= j < r.recorded <= |batch| :: named(batch[j]) && acts(j)
    ensures r.recorded <= |batch| && log == log0 + batch[..r.recorded]
    ensures r.recorded < |batch| ==> !named(batch[r.recorded]) || !acts(r.recorded)
    ensures r.counted <==> r.recorded == |batch| || named(batch[r.recorded])
  {
    AcceptExact(batch, named, acts, 0, log0);
    var accepted := 0;
    log := log0;
    while accepted < |batch|
      invariant 0 <= accepted <= |batch|
      invariant Accept(batch, named, acts, accepted, log) == Accept(batch, named, acts, 0, log0)
    {
      if !named(batch[accepted]) {
        return Reply(accepted, false), log;
      }
      log := Acted(log, batch[accepted], acts(accepted));
      if !acts(accepted) {
        return Reply(accepted, true), log;
      }
      accepted := accepted + 1;
    }
    return Reply(accepted, true), log;
  }
}
