/** Comparing a mirror file with the database: a merge walk over two sources in
    sequence order, the file sorted on the fly through a bounded buffer. */
module ChainCompare {
  import opened Prelude
  import opened AuditRecord
  import opened ChainVerify
  import opened ChainExact
  import opened ChainLaws
  import opened ChainScan

  // ---------------------------------------------------------------------
  // The file, in sequence order.

  datatype Buffer = Buffer(rest: seq<Item>, pending: map<int, Rec>)

  /** Reads until window records are held or the source ends; failed is set by a
      line that cannot be read. Identical repeats of a held record are dropped. */
  function Gather(window: nat, b: Buffer): (r: (Buffer, bool))
    ensures |r.0.rest| + |r.0.pending| <= |b.rest| + |b.pending|
    decreases |b.rest|
  {
    if |b.pending| >= window || b.rest == [] then (b, false)
    else
      match b.rest[0]
      case Damage => (b.(rest := b.rest[1..]), true)
      case Line(r) =>
        if r.seqNo in b.pending && b.pending[r.seqNo].hash == r.hash
        then Gather(window, b.(rest := b.rest[1..]))
        else
          assert |b.pending[r.seqNo := r]| <= |b.pending| + 1;
          Gather(window, Buffer(b.rest[1..], b.pending[r.seqNo := r]))
  }

  /** What bySequence yields from b: records lowest first, ended by damage. */
  function Sequence(window: nat, b: Buffer): seq<Item>
    decreases |b.rest| + |b.pending|
  {
    var (g, failed) := Gather(window, b);
    if failed then [Damage]
    else if g.pending == map[] then []
    else
      var q := Min(g.pending.Keys);
      PendingShrinks(g.pending, q);
      [Line(g.pending[q])] + Sequence(window, g.(pending := g.pending - {q}))
  }

  /** The yielded records that move the walk forward: each above all before it. */
  function Fresh(ys: seq<Item>, last: int): seq<Rec>
    decreases |ys|
  {
    if ys == [] || ys[0].Damage? then []
    else if ys[0].r.seqNo <= last then Fresh(ys[1..], last)
    else [ys[0].r] + Fresh(ys[1..], ys[0].r.seqNo)
  }

  // ---------------------------------------------------------------------
  // The walk.

  datatype Comparison =
    | Mismatch(database: string, file: string)
    | Failed
    | Counts(diverged: int, behind: nat, ahead: nat)

  /** The first thing among ys that ends a comparison with a database of install. */
  function Bad(install: string, ys: seq<Item>): (bad: Option<Comparison>)
    ensures bad.Some? ==> !bad.value.Counts?
    decreases |ys|
  {
    if ys == [] then None
    else if ys[0].Damage? then Some(Failed)
    else if install != "" && ys[0].r.install != install then Some(Mismatch(install, ys[0].r.install))
    else Bad(install, ys[1..])
  }

  function Merge(db: seq<Rec>, file: seq<Rec>): (c: Comparison)
    ensures c.Counts?
    decreases |db| + |file|
  {
    if db == [] then Counts(0, 0, |file|)
    else if file == [] then Counts(0, |db|, 0)
    else if db[0].seqNo < file[0].seqNo then
      var m := Merge(db[1..], file); m.(behind := m.behind + 1)
    else if db[0].seqNo > file[0].seqNo then
      var m := Merge(db, file[1..]); m.(ahead := m.ahead + 1)
    else
      var m := Merge(db[1..], file[1..]);
      if db[0].hash != file[0].hash then m.(diverged := db[0].seqNo) else m
  }

  function InstallOf(db: seq<Rec>): string {
    if db == [] then "" else db[0].install
  }

  ghost predicate OneInstall(db: seq<Rec>) {
    forall r | r in db :: r.install == InstallOf(db) && r.install != ""
  }

  /** The comparison of a one-install database with a file. */
  function Compare(db: seq<Rec>, window: nat, items: seq<Item>): Comparison {
    var ys := Sequence(window, Buffer(items, map[]));
    match Bad(InstallOf(db), ys)
    case Some(c) => c
    case None => Merge(db, Fresh(ys, 0))
  }

  // ---------------------------------------------------------------------
  // The walk as the source runs it.

  datatype Pull = Got(r: Rec) | Broke | Ended

  /** The file side: bySequence, resumed one record at a time, under nextFile. */
  class FileSide {
    const window: nat
    var rest: seq<Item>
    var pending: map<int, Rec>
    var over: bool
    var cur: Option<Rec>
    var last: int

    constructor (window: nat, items: seq<Item>)
      requires Positive(items)
      ensures this.window == window && Valid() && last == 0
      ensures Left() == Sequence(window, Buffer(items, map[]))
    {
      this.window, rest, pending, over := window, items, map[], false;
      cur, last := None, 0;
    }

    ghost predicate Valid()
      reads this
    {
      Positive(rest) && forall k | k in pending :: k >= 1 && pending[k].seqNo == k
    }

    /** What bySequence has still to yield. */
    ghost function Left(): seq<Item>
      reads this
    {
      if over then [] else Sequence(window, Buffer(rest, pending))
    }

    method Pull() returns (p: Pull)
      requires Valid()
      modifies this
      ensures Valid() && cur == old(cur) && last == old(last)
      ensures |rest| + |pending| <= |old(rest)| + |old(pending)|
      ensures p.Got? ==> |rest| + |pending| < |old(rest)| + |old(pending)|
      ensures match p
              case Ended => old(Left()) == [] && Left() == []
              case Broke => old(Left()) == [Damage] && Left() == []
              case Got(r) => old(Left()) == [Line(r)] + Left()
    {
      if over {
        return Ended;
      }
      while |pending| < window
        invariant Valid() && !over
        invariant Gather(window, Buffer(rest, pending)) == Gather(window, Buffer(old(rest), old(pending)))
        invariant |rest| + |pending| <= |old(rest)| + |old(pending)|
        invariant cur == old(cur) && last == old(last)
        decreases |rest|
      {
        if rest == [] {
          break;
        }
        var item := rest[0];
        rest := rest[1..];
        if item.Damage? {
          over := true;
          return Broke;
        }
        var r := item.r;
        if r.seqNo in pending && pending[r.seqNo].hash == r.hash {
          continue;
        }
        pending := pending[r.seqNo := r];
      }
      assert Gather(window, Buffer(rest, pending)) == (Buffer(rest, pending), false);
      if pending == map[] {
        over := true;
        return Ended;
      }
      var next := Lowest(pending);
      var r := pending[next];
      PendingShrinks(pending, next);
      pending := pending - {next};
      return Got(r);
    }

    /** Moves to the next record of the file above the last one, or says what ends
        the comparison instead. */
    method NextFile(dbInstall: string) returns (bad: Option<Comparison>)
      requires Valid()
      modifies this
      ensures Valid()
      ensures |rest| + |pending| <= |old(rest)| + |old(pending)|
      ensures cur.Some? && bad.None? ==> |rest| + |pending| < |old(rest)| + |old(pending)|
      ensures bad.Some? ==> Bad(dbInstall, old(Left())) == bad
      ensures bad.None? ==>
        && Bad(dbInstall, old(Left())) == Bad(dbInstall, Left())
        && match cur
           case None => Left() == [] && Fresh(old(Left()), old(last)) == []
           case Some(r) => last == r.seqNo && Fresh(old(Left()), old(last)) == [r] + Fresh(Left(), last)
    {
      while true
        invariant Valid() && last == old(last)
        invariant |rest| + |pending| <= |old(rest)| + |old(pending)|
        invariant Bad(dbInstall, Left()) == Bad(dbInstall, old(Left()))
        invariant Fresh(Left(), last) == Fresh(old(Left()), old(last))
        decreases |rest| + |pending|
      {
        var p := Pull();
        match p
        case Broke => return Some(Failed);
        case Ended =>
          cur := None;
          return None;
        case Got(r) =>
          if dbInstall != "" && r.install != dbInstall {
            return Some(Mismatch(dbInstall, r.install));
          }
          if r.seqNo > last {
            cur, last := Some(r), r.seqNo;
            return None;
          }
      }
    }

    /** The file's records from the current one on. */
    ghost function Todo(): seq<Rec>
      reads this
    {
      match cur case None => [] case Some(r) => [r] + Fresh(Left(), last)
    }
  }

  function Plus(c: Comparison, m: Comparison): (sum: Comparison)
    requires c.Counts? && m.Counts?
    ensures c == Counts(0, 0, 0) ==> sum == m
  {
    Counts(if c.diverged != 0 then c.diverged else m.diverged, c.behind + m.behind, c.ahead + m.ahead)
  }

  /** One turn of the merge, seen from the count kept so far. */
  function Turn(cmp: Comparison, d: Rec, f: Rec): (c: Comparison)
    requires cmp.Counts?
    ensures c.Counts?
  {
    if d.seqNo < f.seqNo then cmp.(behind := cmp.behind + 1)
    else if d.seqNo > f.seqNo then cmp.(ahead := cmp.ahead + 1)
    else if d.hash != f.hash && cmp.diverged == 0 then cmp.(diverged := d.seqNo)
    else cmp
  }

  lemma MergeTurn(cmp: Comparison, db: seq<Rec>, file: seq<Rec>)
    requires cmp.Counts? && db != [] && file != [] && db[0].seqNo >= 1
    ensures Plus(cmp, Merge(db, file)) ==
      Plus(Turn(cmp, db[0], file[0]),
           Merge(if db[0].seqNo <= file[0].seqNo then db[1..] else db,
                 if db[0].seqNo >= file[0].seqNo then file[1..] else file))
  {
  }

  lemma MergeRest(cmp: Comparison, db: seq<Rec>, file: seq<Rec>)
    requires cmp.Counts? && (db == [] || file == [])
    ensures Plus(cmp, Merge(db, file)) == cmp.(behind := cmp.behind + |db|, ahead := cmp.ahead + |file|)
  {
  }

  method CompareSources(db: seq<Rec>, window: nat, items: seq<Item>) returns (out: Comparison)
    requires Positive(items) && forall r | r in db :: r.seqNo >= 1
    ensures OneInstall(db) ==> out == Compare(db, window, items)
  {
    hide Fresh, Sequence, Gather, Bad, Merge, Turn, Plus;
    var file := new FileSide(window, items);
    ghost var ys := file.Left();
    ghost var want := Merge(db, Fresh(ys, 0));
    InstallsAlike(db);
    hide InstallOf, OneInstall;
    var dbInstall := "";
    var i := 0;
    if i < |db| {
      dbInstall := db[i].install;
    }
    var bad := file.NextFile(dbInstall);
    if bad.Some? {
      return bad.value;
    }
    var cmp := Counts(0, 0, 0);
    assert db[0..] == db;
    while i < |db| && file.cur.Some?
      invariant 0 <= i <= |db| && cmp.Counts? && file.Valid() && fresh(file)
      invariant OneInstall(db) ==> dbInstall == InstallOf(db) && Bad(dbInstall, file.Left()) == Bad(dbInstall, ys)
      invariant Plus(cmp, Merge(db[i..], file.Todo())) == want
      invariant file.cur.None? ==> file.Left() == []
      decreases |db| - i + |file.rest| + |file.pending|, if file.cur.Some? then 1 else 0
    {
      var d, f := db[i], file.cur.value;
      MergeTurn(cmp, db[i..], file.Todo());
      assert db[i..][1..] == db[i + 1..];
      assert file.Todo()[1..] == Fresh(file.Left(), file.last);
      cmp := Turn(cmp, d, f);
      if d.seqNo <= f.seqNo {
        i := i + 1;
        if i < |db| {
          dbInstall := db[i].install;
        }
      }
      if d.seqNo >= f.seqNo {
        bad := file.NextFile(dbInstall);
        if bad.Some? {
          return bad.value;
        }
      }
    }
    MergeRest(cmp, db[i..], file.Todo());
    cmp := CountBehind(db, i, cmp);
    out := CountAhead(file, dbInstall, cmp);
  }

  lemma InstallsAlike(db: seq<Rec>)
    ensures OneInstall(db) ==> forall j | 0 <= j < |db| :: db[j].install == InstallOf(db)
    ensures db == [] ==> InstallOf(db) == ""
  {
    assert forall j | 0 <= j < |db| :: db[j] in db;
  }

  /** What is left of the database once the file is exhausted. */
  method CountBehind(db: seq<Rec>, from: nat, cmp0: Comparison) returns (cmp: Comparison)
    requires from <= |db| && cmp0.Counts?
    ensures cmp == cmp0.(behind := cmp0.behind + (|db| - from))
  {
    cmp := cmp0;
    var i := from;
    while i < |db|
      invariant from <= i <= |db|
      invariant cmp == cmp0.(behind := cmp0.behind + (i - from))
    {
      cmp := cmp.(behind := cmp.behind + 1);
      i := i + 1;
    }
  }

  lemma BadEmpty(install: string)
    ensures Bad(install, []) == None
  {
  }

  /** What is left of the file once the database is exhausted. */
  method CountAhead(file: FileSide, dbInstall: string, cmp0: Comparison) returns (out: Comparison)
    requires file.Valid() && cmp0.Counts? && (file.cur.None? ==> file.Left() == [])
    modifies file
    ensures out == match Bad(dbInstall, old(file.Left()))
                   case Some(c) => c
                   case None => cmp0.(ahead := cmp0.ahead + |old(file.Todo())|)
  {
    hide Fresh, Sequence, Gather, Bad;
    var cmp := cmp0;
    while file.cur.Some?
      invariant cmp.Counts? && file.Valid()
      invariant Bad(dbInstall, file.Left()) == Bad(dbInstall, old(file.Left()))
      invariant cmp.(ahead := cmp.ahead + |file.Todo()|) == cmp0.(ahead := cmp0.ahead + |old(file.Todo())|)
      invariant file.cur.None? ==> file.Left() == []
      decreases |file.rest| + |file.pending|, if file.cur.Some? then 1 else 0
    {
      cmp := cmp.(ahead := cmp.ahead + 1);
      var bad := file.NextFile(dbInstall);
      if bad.Some? {
        return bad.value;
      }
    }
    BadEmpty(dbInstall);
    return cmp;
  }
}
