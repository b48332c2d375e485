/** What a clean comparison means: the walk counts exactly the set differences of
    the two sources, and a clean assessment puts the mirror inside the database. */
module ChainAssess {
  import opened Prelude
  import opened AuditRecord
  import opened ChainVerify
  import opened ChainExact
  import opened ChainLaws
  import opened ChainDisorder
  import opened ChainScan
  import opened ChainFragments
  import opened ChainCompare

  // ---------------------------------------------------------------------
  // The merge.

  function Seqs(rs: seq<Rec>): set<int>
    decreases |rs|
  {
    if rs == [] then {} else {rs[0].seqNo} + Seqs(rs[1..])
  }

  lemma {:induction false} SeqsHas(rs: seq<Rec>, k: int)
    ensures k in Seqs(rs) <==> exists i :: 0 <= i < |rs| && rs[i].seqNo == k
    decreases |rs|
  {
    if rs != [] {
      SeqsHas(rs[1..], k);
      if k in Seqs(rs[1..]) {
        var i :| 0 <= i < |rs[1..]| && rs[1..][i].seqNo == k;
        assert rs[i + 1].seqNo == k;
      }
      if exists i :: 0 <= i < |rs| && rs[i].seqNo == k {
        var i :| 0 <= i < |rs| && rs[i].seqNo == k;
        assert i > 0 ==> rs[1..][i - 1].seqNo == k;
      }
    }
  }

  /** In an ascending source the first record is below all the others. */
  lemma HeadBelow(rs: seq<Rec>)
    requires rs != [] && Ascending(rs)
    ensures Ascending(rs[1..]) && Seqs(rs) == {rs[0].seqNo} + Seqs(rs[1..])
    ensures forall k | k in Seqs(rs[1..]) :: k > rs[0].seqNo
    ensures forall k | k in Seqs(rs) :: k >= rs[0].seqNo
  {
    forall k | k in Seqs(rs[1..]) ensures k > rs[0].seqNo {
      SeqsHas(rs[1..], k);
    }
  }

  lemma SetStep(a: set<int>, b: set<int>, x: int)
    requires x !in a && x !in b
    ensures |({x} + a) - b| == |a - b| + 1
    ensures b - ({x} + a) == b - a
    ensures ({x} + a) - ({x} + b) == a - b
  {
    assert ({x} + a) - b == {x} + (a - b);
  }

  lemma MergeSteps(db: seq<Rec>, file: seq<Rec>)
    requires db != [] && file != []
    ensures db[0].seqNo < file[0].seqNo ==>
      var m := Merge(db[1..], file); Merge(db, file).behind == m.behind + 1 && Merge(db, file).ahead == m.ahead
    ensures db[0].seqNo > file[0].seqNo ==>
      var m := Merge(db, file[1..]); Merge(db, file).behind == m.behind && Merge(db, file).ahead == m.ahead + 1
    ensures db[0].seqNo == file[0].seqNo ==>
      var m := Merge(db[1..], file[1..]); Merge(db, file).behind == m.behind && Merge(db, file).ahead == m.ahead
  {
  }

  lemma MergeEnds(db: seq<Rec>, file: seq<Rec>)
    requires Ascending(db) && Ascending(file) && (db == [] || file == [])
    ensures Merge(db, file).behind == |Seqs(db) - Seqs(file)| && Merge(db, file).ahead == |Seqs(file) - Seqs(db)|
  {
    SeqsSize(db);
    SeqsSize(file);
    assert Seqs(db) - {} == Seqs(db) && Seqs(file) - {} == Seqs(file);
  }

  lemma {:induction false} MergeCounts(db: seq<Rec>, file: seq<Rec>)
    requires Ascending(db) && Ascending(file)
    ensures Merge(db, file).behind == |Seqs(db) - Seqs(file)|
    ensures Merge(db, file).ahead == |Seqs(file) - Seqs(db)|
    decreases |db| + |file|
  {
    hide Ascending, Seqs, Merge;
    if db == [] || file == [] {
      MergeEnds(db, file);
    } else {
      HeadBelow(db);
      HeadBelow(file);
      MergeSteps(db, file);
      var x, y := db[0].seqNo, file[0].seqNo;
      if x < y {
        MergeCounts(db[1..], file);
        SetStep(Seqs(db[1..]), Seqs(file), x);
      } else if x > y {
        MergeCounts(db, file[1..]);
        SetStep(Seqs(file[1..]), Seqs(db), y);
      } else {
        MergeCounts(db[1..], file[1..]);
        SetStep(Seqs(db[1..]), Seqs(file[1..]), x);
        SetStep(Seqs(file[1..]), Seqs(db[1..]), x);
      }
    }
  }

  lemma {:induction false} SeqsSize(rs: seq<Rec>)
    requires Ascending(rs)
    ensures |Seqs(rs)| == |rs|
    decreases |rs|
  {
    if rs != [] {
      HeadBelow(rs);
      SeqsSize(rs[1..]);
    }
  }

  /** Both sources hold sequence number q, with different hashes. */
  ghost predicate Differ(db: seq<Rec>, file: seq<Rec>, q: int) {
    exists i, j :: 0 <= i < |db| && 0 <= j < |file| && db[i].seqNo == q && file[j].seqNo == q
                   && db[i].hash != file[j].hash
  }

  lemma DifferStep(db: seq<Rec>, file: seq<Rec>, db': seq<Rec>, file': seq<Rec>, q: int)
    requires db != [] && file != [] && Ascending(db) && Ascending(file)
    requires db' == (if db[0].seqNo <= file[0].seqNo then db[1..] else db)
    requires file' == (if file[0].seqNo <= db[0].seqNo then file[1..] else file)
    ensures Differ(db, file, q) <==>
      (Differ(db', file', q) || (q == db[0].seqNo == file[0].seqNo && db[0].hash != file[0].hash))
  {
    if Differ(db, file, q) {
      var i, j :| 0 <= i < |db| && 0 <= j < |file| && db[i].seqNo == q && file[j].seqNo == q && db[i].hash != file[j].hash;
      var i', j' := if db' == db then i else i - 1, if file' == file then j else j - 1;
      if db[0].seqNo == file[0].seqNo {
        assert i == 0 <==> j == 0;
      }
      if i' >= 0 && j' >= 0 {
        assert db'[i'] == db[i] && file'[j'] == file[j];
      }
    }
    if Differ(db', file', q) {
      var i, j :| 0 <= i < |db'| && 0 <= j < |file'| && db'[i].seqNo == q && file'[j].seqNo == q && db'[i].hash != file'[j].hash;
      var i', j' := if db' == db then i else i + 1, if file' == file then j else j + 1;
      assert db[i'] == db'[i] && file[j'] == file'[j];
    }
    if q == db[0].seqNo == file[0].seqNo && db[0].hash != file[0].hash {
      assert Differ(db, file, q);
    }
  }

  /** The divergence reported is the least sequence number the sources disagree
      on, and 0 when there is none. */
  lemma {:induction false} MergeDiverged(db: seq<Rec>, file: seq<Rec>, q: int)
    requires Ascending(db) && Ascending(file) && forall i | 0 <= i < |db| :: db[i].seqNo >= 1
    ensures var d := Merge(db, file).diverged;
      && (d != 0 ==> Differ(db, file, d))
      && (Differ(db, file, q) ==> d != 0 && d <= q)
    decreases |db| + |file|
  {
    if db != [] && file != [] {
      HeadBelow(db);
      HeadBelow(file);
      var db' := if db[0].seqNo <= file[0].seqNo then db[1..] else db;
      var file' := if file[0].seqNo <= db[0].seqNo then file[1..] else file;
      MergeDiverged(db', file', q);
      var d := Merge(db', file').diverged;
      DifferStep(db, file, db', file', q);
      DifferStep(db, file, db', file', d);
      if Differ(db, file, q) {
        assert q >= db[0].seqNo;
      }
    }
  }

  // ---------------------------------------------------------------------
  // The sorted file.

  /** The rank of q among the sequence numbers of a source. */
  function Rank(all: set<int>, q: int): nat {
    |set k | k in all && k < q|
  }

  /** No first copy arrives a window or more behind its rank. */
  ghost predicate InWindow(window: nat, all: set<int>, met: map<int, Rec>, rs: seq<Rec>)
    decreases |rs|
  {
    rs == [] ||
    ((rs[0].seqNo !in met ==> |met| < window + Rank(all, rs[0].seqNo)) &&
     InWindow(window, all, Add(met, rs[0]), rs[1..]))
  }

  /** Lines of one sequence number all carry the hash of its first copy. */
  ghost predicate OneHash(all: map<int, Rec>, rs: seq<Rec>) {
    forall i | 0 <= i < |rs| :: rs[i].seqNo in all && rs[i].hash == all[rs[i].seqNo].hash
  }

  lemma {:induction false} LateArrival(window: nat, all: set<int>, met: map<int, Rec>, rs: seq<Rec>, k: int)
    requires InWindow(window, all, met, rs) && k in Collect(met, rs) && k !in met
    ensures |met| < window + Rank(all, k)
    decreases |rs|
  {
    if rs[0].seqNo != k {
      LateArrival(window, all, Add(met, rs[0]), rs[1..], k);
    }
  }

  /** Everything up to last has been yielded, and everything met since is held. */
  ghost predicate Yielding(window: nat, all: map<int, Rec>, met: map<int, Rec>, rs: seq<Rec>, last: int, b: Buffer) {
    && all == Collect(met, rs) && b.rest == Items(rs)
    && InWindow(window, all.Keys, met, rs) && OneHash(all, rs)
    && (forall k | k in met :: k in all && all[k].hash == met[k].hash)
    && (forall k | k in b.pending :: k in met && b.pending[k].seqNo == k && b.pending[k].hash == all[k].hash)
    && (forall k | k in met && k > last :: k in b.pending)
    && (forall k | k in all && k <= last :: k in met)
  }

  lemma GatherStep(window: nat, all: map<int, Rec>, met: map<int, Rec>, rs: seq<Rec>, last: int, b: Buffer, b': Buffer)
    requires Yielding(window, all, met, rs, last, b) && rs != []
    requires b'.rest == b.rest[1..]
    requires b'.pending == b.pending[rs[0].seqNo := rs[0]] ||
             (b'.pending == b.pending && rs[0].seqNo in b.pending)
    ensures Yielding(window, all, Add(met, rs[0]), rs[1..], last, b')
  {
    assert Items(rs)[1..] == Items(rs[1..]);
    forall i | 0 <= i < |rs[1..]| ensures rs[1..][i].seqNo in all && rs[1..][i].hash == all[rs[1..][i].seqNo].hash {
      assert rs[1..][i] == rs[i + 1];
    }
    assert rs[0].seqNo in all && rs[0].hash == all[rs[0].seqNo].hash;
  }

  lemma {:induction false} GatherYields(window: nat, all: map<int, Rec>, met: map<int, Rec>, rs: seq<Rec>, last: int, b: Buffer)
      returns (met': map<int, Rec>, rs': seq<Rec>)
    requires Yielding(window, all, met, rs, last, b)
    ensures var (g, failed) := Gather(window, b);
      !failed && Yielding(window, all, met', rs', last, g) && (|g.pending| >= window || rs' == [])
    decreases |rs|
  {
    hide Yielding, InWindow, OneHash;
    assert b.rest == Items(rs) by { YieldingRest(window, all, met, rs, last, b); }
    if |b.pending| >= window || rs == [] {
      met', rs' := met, rs;
    } else {
      var r := rs[0];
      var same := r.seqNo in b.pending && b.pending[r.seqNo].hash == r.hash;
      var b' := Buffer(b.rest[1..], if same then b.pending else b.pending[r.seqNo := r]);
      GatherStep(window, all, met, rs, last, b, b');
      met', rs' := GatherYields(window, all, Add(met, r), rs[1..], last, b');
    }
  }

  lemma YieldingRest(window: nat, all: map<int, Rec>, met: map<int, Rec>, rs: seq<Rec>, last: int, b: Buffer)
    requires Yielding(window, all, met, rs, last, b)
    ensures b.rest == Items(rs)
  {
  }

  /** With the buffer full of records that are all still due, none below the
      lowest of them can be missing. */
  lemma NothingBelow(window: nat, all: map<int, Rec>, met: map<int, Rec>, rs: seq<Rec>, last: int, b: Buffer, k: int)
    requires Yielding(window, all, met, rs, last, b) && b.pending != map[]
    requires |b.pending| >= window || rs == []
    requires last < Min(b.pending.Keys) && k in all && k < Min(b.pending.Keys)
    ensures k in met
  {
    if k !in met {
      var missing := set x | x in all && x !in met;
      assert k in missing;
      var m := Min(missing);
      var below := set x | x in all.Keys && x < m;
      assert below !! b.pending.Keys by {
        assert m <= k;
      }
      assert met.Keys == below + b.pending.Keys by {
        forall x | x in met.Keys ensures x in below + b.pending.Keys {
          if x > last {
            assert x in b.pending;
          } else {
            assert m > last;
          }
        }
        forall x | x in below ensures x in met.Keys {
          assert x in missing || x in met;
        }
      }
      assert |met.Keys| == |below| + |b.pending.Keys|;
      if rs != [] {
        LateArrival(window, all.Keys, met, rs, m);
      }
      assert false;
    }
  }

  /** out is what of all lies above last, in order. */
  ghost predicate Listing(all: map<int, Rec>, last: int, out: seq<Rec>) {
    && Ascending(out)
    && (forall i | 0 <= i < |out| :: out[i].seqNo > last && out[i].seqNo in all
                                     && out[i].hash == all[out[i].seqNo].hash)
    && (forall k | k in all && k > last :: k in Seqs(out))
  }

  lemma ListingCons(all: map<int, Rec>, last: int, r: Rec, out: seq<Rec>)
    requires Listing(all, r.seqNo, out) && r.seqNo > last && r.seqNo in all && r.hash == all[r.seqNo].hash
    requires forall k | k in all && k > last :: k >= r.seqNo
    ensures Listing(all, last, [r] + out)
  {
    var c := [r] + out;
    assert c[1..] == out;
    forall i, j | 0 <= i < j < |c| ensures c[i].seqNo < c[j].seqNo {
      assert c[j] == out[j - 1];
      assert i > 0 ==> c[i] == out[i - 1];
    }
  }

  /** Taking the lowest record out of a full buffer. */
  lemma TakeLowest(window: nat, all: map<int, Rec>, met: map<int, Rec>, rs: seq<Rec>, last: int, g: Buffer)
    requires Yielding(window, all, met, rs, last, g) && g.pending != map[]
    requires |g.pending| >= window || rs == []
    ensures var q := Min(g.pending.Keys);
      var g' := g.(pending := g.pending - {q});
      && (q <= last ==> Yielding(window, all, met, rs, last, g'))
      && (q > last ==>
            && Yielding(window, all, met, rs, q, g') && q in all && g.pending[q].hash == all[q].hash
            && g.pending[q].seqNo == q
            && forall k | k in all && k > last :: k >= q)
  {
    var q := Min(g.pending.Keys);
    if q > last {
      forall k | k in all && k < q ensures k in met && k <= last {
        NothingBelow(window, all, met, rs, last, g, k);
      }
    }
  }

  lemma {:induction false} SequenceLists(window: nat, all: map<int, Rec>, met: map<int, Rec>, rs: seq<Rec>, last: int, b: Buffer)
    requires window > 0 && Yielding(window, all, met, rs, last, b)
    ensures Undamaged(Sequence(window, b))
    ensures Listing(all, last, Fresh(Sequence(window, b), last))
    decreases |b.rest| + |b.pending|
  {
    hide Listing, Yielding, InWindow, OneHash;
    var met', rs' := GatherYields(window, all, met, rs, last, b);
    var (g, _) := Gather(window, b);
    if g.pending == map[] {
      NoneLeft(window, all, met', rs', last, g);
    } else {
      var q := Min(g.pending.Keys);
      var g' := g.(pending := g.pending - {q});
      var r := g.pending[q];
      PendingShrinks(g.pending, q);
      TakeLowest(window, all, met', rs', last, g);
      var last' := if q <= last then last else q;
      SequenceLists(window, all, met', rs', last', g');
      var ys, tail := Sequence(window, b), Sequence(window, g');
      assert ys == [Line(r)] + tail && ys[1..] == tail;
      LowestKey(window, all, met', rs', last, g);
      if q > last {
        ListingCons(all, last, r, Fresh(tail, q));
      }
    }
  }

  lemma LowestKey(window: nat, all: map<int, Rec>, met: map<int, Rec>, rs: seq<Rec>, last: int, g: Buffer)
    requires Yielding(window, all, met, rs, last, g) && g.pending != map[]
    ensures g.pending[Min(g.pending.Keys)].seqNo == Min(g.pending.Keys)
  {
  }

  lemma NoneLeft(window: nat, all: map<int, Rec>, met: map<int, Rec>, rs: seq<Rec>, last: int, g: Buffer)
    requires window > 0 && Yielding(window, all, met, rs, last, g) && g.pending == map[]
    requires |g.pending| >= window || rs == []
    ensures Listing(all, last, [])
  {
  }

  /** A readable file within the window, with one hash for each sequence number,
      is put in strictly ascending order without loss. */
  lemma FileSorted(window: nat, rs: seq<Rec>)
    requires window > 0 && (forall r | r in rs :: r.seqNo >= 1)
    requires InWindow(window, Firsts(rs).Keys, map[], rs) && OneHash(Firsts(rs), rs)
    ensures Undamaged(Sequence(window, Buffer(Items(rs), map[])))
    ensures Listing(Firsts(rs), 0, Fresh(Sequence(window, Buffer(Items(rs), map[])), 0))
    ensures Seqs(Fresh(Sequence(window, Buffer(Items(rs), map[])), 0)) == Firsts(rs).Keys
  {
    var all := Firsts(rs);
    CollectHas(map[], rs);
    forall k | k in all ensures k >= 1 {
    }
    SequenceLists(window, all, map[], rs, 0, Buffer(Items(rs), map[]));
    var out := Fresh(Sequence(window, Buffer(Items(rs), map[])), 0);
    forall k ensures k in Seqs(out) <==> k in all {
      SeqsHas(out, k);
    }
  }

  // ---------------------------------------------------------------------
  // The comparison, as sets.

  /** Every record still held or to be read is of this install. */
  ghost predicate AllFrom(install: string, b: Buffer) {
    && (forall k | k in b.pending :: b.pending[k].install == install)
    && (forall i | 0 <= i < |b.rest| && b.rest[i].Line? :: b.rest[i].r.install == install)
  }

  lemma {:induction false} GatherFrom(install: string, window: nat, b: Buffer)
    requires AllFrom(install, b)
    ensures AllFrom(install, Gather(window, b).0)
    decreases |b.rest|
  {
    if |b.pending| < window && b.rest != [] && b.rest[0].Line? {
      var r := b.rest[0].r;
      var same := r.seqNo in b.pending && b.pending[r.seqNo].hash == r.hash;
      GatherFrom(install, window, Buffer(b.rest[1..], if same then b.pending else b.pending[r.seqNo := r]));
    }
  }

  lemma {:induction false} NothingBad(install: string, window: nat, b: Buffer)
    requires AllFrom(install, b) && Undamaged(Sequence(window, b))
    ensures Bad(install, Sequence(window, b)) == None
    decreases |b.rest| + |b.pending|
  {
    GatherFrom(install, window, b);
    var (g, failed) := Gather(window, b);
    var ys := Sequence(window, b);
    assert ys != [] ==> ys[0].Line?;
    if !failed && g.pending != map[] {
      var q := Min(g.pending.Keys);
      PendingShrinks(g.pending, q);
      var g' := g.(pending := g.pending - {q});
      var tail := Sequence(window, g');
      assert ys == [Line(g.pending[q])] + tail && ys[1..] == tail;
      forall i | 0 <= i < |tail| ensures tail[i].Line? {
        assert ys[i + 1] == tail[i];
      }
      NothingBad(install, window, g');
    }
  }

  /** A file the walk can follow: readable, one hash a number, disorder inside the window. */
  ghost predicate Walkable(window: nat, rs: seq<Rec>) {
    && (forall r | r in rs :: r.seqNo >= 1)
    && InWindow(window, Firsts(rs).Keys, map[], rs) && OneHash(Firsts(rs), rs)
  }

  /** The two sources disagree about sequence number q. */
  ghost predicate Disagree(db: seq<Rec>, file: seq<Rec>, q: int) {
    exists d, f :: d in db && f in file && d.seqNo == q && f.seqNo == q && d.hash != f.hash
  }

  lemma DisagreeListing(db: seq<Rec>, rs: seq<Rec>, out: seq<Rec>, q: int)
    requires Listing(Firsts(rs), 0, out) && OneHash(Firsts(rs), rs)
    requires forall r | r in rs :: r.seqNo >= 1
    ensures Disagree(db, rs, q) <==> Differ(db, out, q)
  {
    if Disagree(db, rs, q) {
      var d, f :| d in db && f in rs && d.seqNo == q && f.seqNo == q && d.hash != f.hash;
      var i :| 0 <= i < |db| && db[i] == d;
      var j0 :| 0 <= j0 < |rs| && rs[j0] == f;
      assert q in Firsts(rs) && Firsts(rs)[q].hash == f.hash;
      SeqsHas(out, q);
      var j :| 0 <= j < |out| && out[j].seqNo == q;
      assert out[j].hash == f.hash;
    }
    if Differ(db, out, q) {
      var i, j :| 0 <= i < |db| && 0 <= j < |out| && db[i].seqNo == q && out[j].seqNo == q && db[i].hash != out[j].hash;
      CollectValue(map[], rs, q);
      assert db[i] in db && Firsts(rs)[q] in rs;
    }
  }

  /** What a walk that was not cut off by a foreign line counts. */
  lemma WalkCounts(db: seq<Rec>, window: nat, rs: seq<Rec>)
    requires window > 0 && Ascending(db) && (forall d | d in db :: d.seqNo >= 1)
    requires Walkable(window, rs)
    requires Bad(InstallOf(db), Sequence(window, Buffer(Items(rs), map[]))) == None
    ensures var c := Compare(db, window, Items(rs));
      && c.Counts?
      && c.behind == |Seqs(db) - Seqs(rs)| && c.ahead == |Seqs(rs) - Seqs(db)|
      && (c.diverged != 0 ==> Disagree(db, rs, c.diverged))
      && forall q | Disagree(db, rs, q) :: 0 != c.diverged <= q
  {
    hide Sequence, Fresh, Gather, Merge, Bad, InWindow, OneHash, Disagree;
    FileSorted(window, rs);
    var ys := Sequence(window, Buffer(Items(rs), map[]));
    var out := Fresh(ys, 0);
    FirstsSeqs(rs);
    ListingAscending(Firsts(rs), out);
    MergeCounts(db, out);
    MergeDisagrees(db, rs, out);
  }

  /** The walk refines its definition by sets. Over a database in order and a
      walkable file of the same install: behind and ahead count the records each
      side lacks, and the divergence is the least number the two disagree on. */
  lemma CompareExact(db: seq<Rec>, window: nat, rs: seq<Rec>)
    requires window > 0 && Ascending(db) && (forall d | d in db :: d.seqNo >= 1)
    requires Walkable(window, rs)
    requires forall r | r in rs :: r.install == InstallOf(db) || db == []
    ensures var c := Compare(db, window, Items(rs));
      && c.Counts?
      && c.behind == |Seqs(db) - Seqs(rs)| && c.ahead == |Seqs(rs) - Seqs(db)|
      && (c.diverged != 0 ==> Disagree(db, rs, c.diverged))
      && forall q | Disagree(db, rs, q) :: 0 != c.diverged <= q
  {
    hide Sequence, Compare, Bad, InWindow, OneHash, Disagree;
    FileSorted(window, rs);
    GoodInstall(db, window, rs);
    WalkCounts(db, window, rs);
  }

  lemma ListingAscending(all: map<int, Rec>, out: seq<Rec>)
    requires Listing(all, 0, out)
    ensures Ascending(out)
  {
  }

  lemma MergeDisagrees(db: seq<Rec>, rs: seq<Rec>, out: seq<Rec>)
    requires Listing(Firsts(rs), 0, out) && OneHash(Firsts(rs), rs) && Ascending(db)
    requires (forall d | d in db :: d.seqNo >= 1) && forall r | r in rs :: r.seqNo >= 1
    ensures var d := Merge(db, out).diverged;
      && (d != 0 ==> Disagree(db, rs, d))
      && forall q | Disagree(db, rs, q) :: 0 != d <= q
  {
    hide Merge;
    var d := Merge(db, out).diverged;
    assert forall i | 0 <= i < |db| :: db[i] in db;
    MergeDiverged(db, out, 0);
    DisagreeListing(db, rs, out, d);
    forall q | Disagree(db, rs, q) ensures 0 != d <= q {
      DisagreeListing(db, rs, out, q);
      MergeDiverged(db, out, q);
    }
  }

  lemma GoodInstall(db: seq<Rec>, window: nat, rs: seq<Rec>)
    requires forall r | r in rs :: r.install == InstallOf(db) || db == []
    requires Undamaged(Sequence(window, Buffer(Items(rs), map[])))
    ensures Bad(InstallOf(db), Sequence(window, Buffer(Items(rs), map[]))) == None
  {
    if db != [] {
      NothingBad(InstallOf(db), window, Buffer(Items(rs), map[]));
    } else {
      NoInstall(Sequence(window, Buffer(Items(rs), map[])));
    }
  }

  lemma {:induction false} NoInstall(ys: seq<Item>)
    requires Undamaged(ys)
    ensures Bad("", ys) == None
    decreases |ys|
  {
    if ys != [] {
      NoInstall(ys[1..]);
    }
  }

  lemma FirstsSeqs(rs: seq<Rec>)
    ensures Firsts(rs).Keys == Seqs(rs)
  {
    CollectHas(map[], rs);
    forall k ensures k in Firsts(rs) <==> k in Seqs(rs) {
      SeqsHas(rs, k);
      if k in Firsts(rs) {
        var r :| r in rs && r.seqNo == k;
        var i :| 0 <= i < |rs| && rs[i] == r;
      }
      if k in Seqs(rs) {
        var i :| 0 <= i < |rs| && rs[i].seqNo == k;
        assert rs[i] in rs;
      }
    }
  }

  // ---------------------------------------------------------------------
  // Every passed file is walkable.

  lemma {:induction false} TimelyInWindow(compute: Hasher, window: nat, all: map<int, Rec>, start: int, met: map<int, Rec>, rs: seq<Rec>)
    requires AllTimely(compute, window, start, met, rs) && Contiguous(all, start)
    requires all == Collect(met, rs) && forall k | k in met :: met[k].seqNo == k
    ensures InWindow(window, all.Keys, met, rs)
    decreases |rs|
  {
    if rs != [] {
      var q := rs[0].seqNo;
      CollectKeeps(Add(met, rs[0]), rs[1..], q);
      ContiguousRank(all, start, q);
      TimelyInWindow(compute, window, all, start, Add(met, rs[0]), rs[1..]);
    }
  }

  lemma ContiguousRank(all: map<int, Rec>, start: int, q: int)
    requires Contiguous(all, start) && q in all
    ensures Rank(all.Keys, q) == q - start
  {
    assert (set k | k in all.Keys && k < q) == Range(start, q - start);
  }

  lemma PassedWalkable(compute: Hasher, window: nat, opts: Opts, rs: seq<Rec>)
    requires window > 0 && Acceptable(compute, window, opts, rs) && forall r | r in rs :: r.seqNo >= 1
    ensures Walkable(window, rs)
  {
    if rs != [] {
      var start := AcceptableStarts(compute, window, opts, rs);
      TimelyInWindow(compute, window, Firsts(rs), start, map[], rs);
    }
    forall i | 0 <= i < |rs| ensures rs[i].seqNo in Firsts(rs) && rs[i].hash == Firsts(rs)[rs[i].seqNo].hash {
      assert rs[i] in rs;
      PassedLines(compute, window, opts, rs, rs[i]);
    }
  }

  // ---------------------------------------------------------------------
  // The assessment.

  datatype Assessment = Assessment(chain: Option<Result>, mirror: Option<Result>, comparison: Option<Comparison>)
  {
    predicate OK() {
      && (chain.Some? ==> chain.value.OK())
      && (mirror.Some? ==> mirror.value.OK())
      && (comparison.Some? ==> Clean(comparison.value))
    }
  }

  /** The database by its own verification, which knows what was pruned and whether there
      ever was a record, and the mirror beside it. */
  function Assess(compute: Hasher, window: nat, pruned: Option<Anchor>, minted: bool, db: seq<Rec>, opts: Opts,
                  file: seq<Item>): Assessment {
    Assessment(Some(VerifyRows(compute, window, Items(db), pruned, minted)), Some(Verify(compute, window, file, opts)),
               Some(Compare(db, window, file)))
  }

  ghost predicate From(install: string, rs: seq<Rec>) {
    forall r | r in rs :: r.install == install
  }

  /** No two lines hash alike and name different installs. */
  ghost predicate HashedApart(compute: Hasher, rs: seq<Rec>) {
    forall r, s | r in rs && s in rs && compute(r) == compute(s) :: r.install == s.install
  }

  /** The two are of one install, where there is anything to tell. */
  predicate SameInstall(db: seq<Rec>, rs: seq<Rec>) {
    db != [] && rs != [] ==> db[0].install == rs[0].install
  }

  /** Every line of the file has its record, by number and hash, in the database. */
  ghost predicate Within(rs: seq<Rec>, db: seq<Rec>) {
    forall r | r in rs :: exists d :: d in db && d.seqNo == r.seqNo && d.hash == r.hash
  }

  lemma WrongInstall(dbInstall: string, window: nat, rs: seq<Rec>)
    requires window > 0 && rs != [] && From(rs[0].install, rs) && dbInstall != "" && dbInstall != rs[0].install
    requires Undamaged(Sequence(window, Buffer(Items(rs), map[])))
    ensures Bad(dbInstall, Sequence(window, Buffer(Items(rs), map[]))).Some?
  {
    var b := Buffer(Items(rs), map[]);
    GatherFrom(rs[0].install, window, b);
    GatherHolds(window, b);
    var (g, failed) := Gather(window, b);
    var ys := Sequence(window, b);
    assert ys != [] ==> ys[0].Line?;
    if !failed {
      assert ys[0] == Line(g.pending[Min(g.pending.Keys)]);
    }
  }

  /** What ends a comparison is the first thing among the lines that is damaged or foreign,
      and says which: a foreign one names the database's install and then its own. */
  lemma {:induction false} BadExact(install: string, ys: seq<Item>, k: nat)
    requires k <= |ys| && forall i | 0 <= i < k :: ys[i].Line? && (install == "" || ys[i].r.install == install)
    ensures k == |ys| ==> Bad(install, ys) == None
    ensures k < |ys| && ys[k].Damage? ==> Bad(install, ys) == Some(Failed)
    ensures k < |ys| && ys[k].Line? && install != "" && ys[k].r.install != install ==>
      Bad(install, ys) == Some(Mismatch(install, ys[k].r.install))
    decreases k
  {
    if k > 0 {
      assert forall i | 0 <= i < k - 1 :: ys[1..][i] == ys[i + 1];
      BadExact(install, ys[1..], k - 1);
    }
  }

  /** A mirror of another install is compared no further: the comparison names both. */
  lemma ForeignMirror(db: seq<Rec>, window: nat, rs: seq<Rec>)
    requires window > 0 && db != [] && db[0].install != "" && rs != [] && From(rs[0].install, rs)
    requires rs[0].install != db[0].install
    ensures Compare(db, window, Items(rs)) == Mismatch(db[0].install, rs[0].install)
  {
    var b := Buffer(Items(rs), map[]);
    GatherFrom(rs[0].install, window, b);
    GatherHolds(window, b);
    GatherReads(window, b);
    var (g, failed) := Gather(window, b);
    var ys := Sequence(window, b);
    assert ys[0] == Line(g.pending[Min(g.pending.Keys)]);
    BadExact(db[0].install, ys, 0);
  }

  lemma {:induction false} GatherReads(window: nat, b: Buffer)
    requires Undamaged(b.rest)
    ensures var (g, failed) := Gather(window, b); !failed && Undamaged(g.rest)
    decreases |b.rest|
  {
    if |b.pending| < window && b.rest != [] {
      var r := b.rest[0].r;
      var same := r.seqNo in b.pending && b.pending[r.seqNo].hash == r.hash;
      assert forall i | 0 <= i < |b.rest[1..]| :: b.rest[1..][i] == b.rest[i + 1];
      GatherReads(window, Buffer(b.rest[1..], if same then b.pending else b.pending[r.seqNo := r]));
    }
  }

  lemma {:induction false} GatherKeepsDamage(window: nat, b: Buffer)
    requires Damage in b.rest
    ensures var (g, failed) := Gather(window, b); failed || (Damage in g.rest && |g.pending| >= window)
    decreases |b.rest|
  {
    if |b.pending| < window && b.rest[0].Line? {
      var r := b.rest[0].r;
      var same := r.seqNo in b.pending && b.pending[r.seqNo].hash == r.hash;
      assert b.rest == [b.rest[0]] + b.rest[1..];
      GatherKeepsDamage(window, Buffer(b.rest[1..], if same then b.pending else b.pending[r.seqNo := r]));
    }
  }

  lemma {:induction false} DamageEnds(install: string, window: nat, b: Buffer)
    requires window > 0 && Damage in b.rest && AllFrom(install, b)
    ensures Bad(install, Sequence(window, b)) == Some(Failed)
    decreases |b.rest| + |b.pending|
  {
    GatherFrom(install, window, b);
    GatherKeepsDamage(window, b);
    var (g, failed) := Gather(window, b);
    if !failed {
      var q := Min(g.pending.Keys);
      PendingShrinks(g.pending, q);
      var g' := g.(pending := g.pending - {q});
      DamageEnds(install, window, g');
      var ys, tail := Sequence(window, b), Sequence(window, g');
      assert ys == [Line(g.pending[q])] + tail && ys[1..] == tail;
    }
  }

  /** A mirror of the database's own install with a line that cannot be read is a failure,
      whatever stands before that line. */
  lemma DamagedMirror(db: seq<Rec>, window: nat, items: seq<Item>)
    requires window > 0 && Damage in items
    requires forall i | 0 <= i < |items| && items[i].Line? :: items[i].r.install == InstallOf(db)
    ensures Compare(db, window, items) == Failed
  {
    DamageEnds(InstallOf(db), window, Buffer(items, map[]));
  }

  lemma {:induction false} GatherHolds(window: nat, b: Buffer)
    requires window > 0 && (b.pending != map[] || (b.rest != [] && b.rest[0].Line?))
    ensures Gather(window, b).0.pending != map[]
    decreases |b.rest|
  {
    if |b.pending| < window && b.rest != [] && b.rest[0].Line? {
      var r := b.rest[0].r;
      var same := r.seqNo in b.pending && b.pending[r.seqNo].hash == r.hash;
      var p := if same then b.pending else b.pending[r.seqNo := r];
      assert r.seqNo in p;
      GatherHolds(window, Buffer(b.rest[1..], p));
    }
  }

  lemma WithinCounts(db: seq<Rec>, rs: seq<Rec>, c: Comparison)
    requires c.Counts? && c.ahead == |Seqs(rs) - Seqs(db)|
    requires c.diverged != 0 ==> Disagree(db, rs, c.diverged)
    requires forall q | Disagree(db, rs, q) :: 0 != c.diverged <= q
    requires Ascending(db)
    ensures c.diverged == 0 && c.ahead == 0 <==> Within(rs, db)
  {
    if c.diverged == 0 && c.ahead == 0 {
      forall r | r in rs ensures exists d :: d in db && d.seqNo == r.seqNo && d.hash == r.hash {
        var i :| 0 <= i < |rs| && rs[i] == r;
        SeqsHas(rs, r.seqNo);
        assert r.seqNo !in Seqs(rs) - Seqs(db);
        SeqsHas(db, r.seqNo);
        var j :| 0 <= j < |db| && db[j].seqNo == r.seqNo;
        assert db[j] in db;
        assert !Disagree(db, rs, r.seqNo);
      }
    }
    if Within(rs, db) {
      forall k ensures k !in Seqs(rs) - Seqs(db) {
        SeqsHas(rs, k);
        SeqsHas(db, k);
        if k in Seqs(rs) {
          var i :| 0 <= i < |rs| && rs[i].seqNo == k;
          var d :| d in db && d.seqNo == k && d.hash == rs[i].hash;
          var j :| 0 <= j < |db| && db[j] == d;
        }
      }
      assert Seqs(rs) - Seqs(db) == {};
      if c.diverged != 0 {
        NotWithin(db, rs, c.diverged);
      }
    }
  }

  lemma NotWithin(db: seq<Rec>, rs: seq<Rec>, q: int)
    requires Ascending(db) && Disagree(db, rs, q)
    ensures !Within(rs, db)
  {
    var d, f :| d in db && f in rs && d.seqNo == q && f.seqNo == q && d.hash != f.hash;
    var i :| 0 <= i < |db| && db[i] == d;
    forall d' | d' in db && d'.seqNo == f.seqNo ensures d'.hash != f.hash {
      var j :| 0 <= j < |db| && db[j] == d';
      assert i == j;
    }
  }

  predicate Clean(c: Comparison) {
    c.Counts? && c.diverged == 0 && c.ahead == 0
  }

  /** A clean comparison is containment, whatever the lines say of their install. */
  lemma CleanWithin(compute: Hasher, window: nat, db: seq<Rec>, opts: Opts, rs: seq<Rec>)
    requires window > 0 && Ascending(db)
    requires (forall d | d in db :: d.seqNo >= 1) && forall r | r in rs :: r.seqNo >= 1
    requires Acceptable(compute, window, opts, rs) && Clean(Compare(db, window, Items(rs)))
    ensures Within(rs, db)
  {
    hide Acceptable, Sequence, Fresh, Bad, Merge, Walkable;
    PassedWalkable(compute, window, opts, rs);
    assert Bad(InstallOf(db), Sequence(window, Buffer(Items(rs), map[]))) == None;
    WalkCounts(db, window, rs);
    WithinCounts(db, rs, Compare(db, window, Items(rs)));
  }

  lemma PairExact(compute: Hasher, window: nat, db: seq<Rec>, opts: Opts, rs: seq<Rec>)
    requires window > 0 && Ascending(db) && (db != [] ==> db[0].install != "")
    requires (forall d | d in db :: d.seqNo >= 1) && forall r | r in rs :: r.seqNo >= 1
    requires rs != [] ==> From(rs[0].install, rs)
    requires Acceptable(compute, window, opts, rs)
    ensures Clean(Compare(db, window, Items(rs))) <==> SameInstall(db, rs) && Within(rs, db)
  {
    hide Acceptable, Sequence, Fresh;
    PassedWalkable(compute, window, opts, rs);
    if SameInstall(db, rs) {
      CompareExact(db, window, rs);
      WithinCounts(db, rs, Compare(db, window, Items(rs)));
    } else {
      FileSorted(window, rs);
      WrongInstall(db[0].install, window, rs);
    }
  }

  /** A passed source is of one install, unless two of its lines hash alike and say
      otherwise. */
  lemma PassedInstall(compute: Hasher, window: nat, opts: Opts, rs: seq<Rec>)
    requires window > 0 && rs != [] && Acceptable(compute, window, opts, rs) && HashedApart(compute, rs)
    ensures From(rs[0].install, rs)
  {
    hide Acceptable, AllTimely;
    var start := AcceptableStarts(compute, window, opts, rs);
    var c := Chain(rs);
    forall r | r in rs ensures r.install == c[0].install {
      PassedLines(compute, window, opts, rs, r);
      CollectValue(map[], rs, r.seqNo);
      var f := Firsts(rs)[r.seqNo];
      PassedLines(compute, window, opts, rs, f);
      ChainAt(compute, window, opts, rs, r.seqNo);
    }
    assert rs[0] in rs;
  }

  lemma ChainAt(compute: Hasher, window: nat, opts: Opts, rs: seq<Rec>, q: int)
    requires rs != [] && Acceptable(compute, window, opts, rs) && q in Firsts(rs)
    ensures Chain(rs) != [] && Firsts(rs)[q].install == Chain(rs)[0].install
  {
    hide AllTimely;
    var start := AcceptableStarts(compute, window, opts, rs);
    ChainFragments.OneInstall(compute, Chain(rs), q - start);
  }

  /** Rows the database's own verification passes are of one install, so what a
      comparison makes of any others is never clean. */
  lemma PassedOneInstall(compute: Hasher, window: nat, pruned: Option<Anchor>, minted: bool, db: seq<Rec>)
    requires window > 0 && Ascending(db) && (db != [] ==> db[0].install != "")
    requires VerifyRows(compute, window, Items(db), pruned, minted).OK()
    ensures ChainCompare.OneInstall(db)
  {
    hide Verify, AllTimely;
    if db != [] {
      var opts := RowsOpen(pruned);
      RowsConsecutive(compute, window, opts, db);
      VerifyExact(compute, window, db, opts);
      ChainOf(db, db);
      forall r | r in db ensures r.install == db[0].install {
        var i :| 0 <= i < |db| && db[i] == r;
        ChainFragments.OneInstall(compute, db, i);
      }
    }
  }

  /** A chain and a mirror that both pass are assessed as one pair exactly when they
      are of one install and every line of the mirror is in the database, unless two
      lines of the mirror hash alike and name different installs. Either side may be
      empty, the database only where no record was ever made. */
  lemma AssessmentExact(compute: Hasher, window: nat, pruned: Option<Anchor>, minted: bool,
      db: seq<Rec>, opts: Opts, rs: seq<Rec>)
    requires window > 0 && Ascending(db) && (db != [] ==> db[0].install != "")
    requires (forall d | d in db :: d.seqNo >= 1) && forall r | r in rs :: r.seqNo >= 1
    requires VerifyRows(compute, window, Items(db), pruned, minted).OK() && Verify(compute, window, Items(rs), opts).OK()
    requires HashedApart(compute, rs)
    ensures Assess(compute, window, pruned, minted, db, opts, Items(rs)).OK() <==> SameInstall(db, rs) && Within(rs, db)
  {
    hide Verify, Compare, Acceptable, SameInstall;
    VerifyExact(compute, window, rs, opts);
    if rs != [] {
      PassedInstall(compute, window, opts, rs);
    }
    PairExact(compute, window, db, opts, rs);
  }

  /** A clean assessment is containment: the mirror's records are a contiguous
      run of the database's, with the same hashes in the same places. */
  lemma MirrorSegment(compute: Hasher, window: nat, pruned: Option<Anchor>, minted: bool,
      db: seq<Rec>, opts: Opts, rs: seq<Rec>) returns (lo: nat)
    requires window > 0 && Ascending(db)
    requires (forall d | d in db :: d.seqNo >= 1) && forall r | r in rs :: r.seqNo >= 1
    requires Assess(compute, window, pruned, minted, db, opts, Items(rs)).OK()
    ensures Acceptable(compute, window, opts, rs)
    ensures lo + |Chain(rs)| <= |db|
    ensures forall i | 0 <= i < |Chain(rs)| ::
      db[lo + i].seqNo == Chain(rs)[i].seqNo && db[lo + i].hash == Chain(rs)[i].hash
  {
    hide Assess, Assessment.OK, Within, Consecutive, AllTimely, Chained;
    Contained(compute, window, pruned, minted, db, opts, rs);
    if rs == [] {
      lo := 0;
    } else {
      lo := SegmentOf(compute, window, opts, rs, db);
    }
  }

  lemma Contained(compute: Hasher, window: nat, pruned: Option<Anchor>, minted: bool,
      db: seq<Rec>, opts: Opts, rs: seq<Rec>)
    requires window > 0 && Ascending(db)
    requires (forall d | d in db :: d.seqNo >= 1) && forall r | r in rs :: r.seqNo >= 1
    requires Assess(compute, window, pruned, minted, db, opts, Items(rs)).OK()
    ensures Acceptable(compute, window, opts, rs) && Within(rs, db)
    ensures rs != [] ==> Consecutive(db)
  {
    hide Verify, Compare, Acceptable;
    VerifyExact(compute, window, rs, opts);
    CleanWithin(compute, window, db, opts, rs);
    if rs != [] {
      assert rs[0] in rs;
      RowsConsecutive(compute, window, RowsOpen(pruned), db);
    }
  }

  lemma RowsConsecutive(compute: Hasher, window: nat, dbOpts: Opts, db: seq<Rec>)
    requires window > 0 && db != [] && Ascending(db) && Verify(compute, window, Items(db), dbOpts).OK()
    ensures Consecutive(db)
  {
    hide Verify;
    ScanRefined(compute, window, dbOpts, db);
    WalkConsecutive(compute, None, db[0].seqNo, Open(dbOpts, db[0]), db);
  }

  lemma SegmentOf(compute: Hasher, window: nat, opts: Opts, rs: seq<Rec>, db: seq<Rec>) returns (lo: nat)
    requires rs != [] && Acceptable(compute, window, opts, rs) && Within(rs, db) && Consecutive(db)
    ensures lo + |Chain(rs)| <= |db|
    ensures forall i | 0 <= i < |Chain(rs)| ::
      db[lo + i].seqNo == Chain(rs)[i].seqNo && db[lo + i].hash == Chain(rs)[i].hash
  {
    hide AllTimely, Chained, Within;
    var start := AcceptableStarts(compute, window, opts, rs);
    var c := Chain(rs);
    lo := Located(compute, window, opts, rs, db, 0);
    forall i | 0 <= i < |c|
      ensures lo + i < |db| && db[lo + i].seqNo == c[i].seqNo && db[lo + i].hash == c[i].hash
    {
      var j := Located(compute, window, opts, rs, db, i);
      assert db[j].seqNo == db[0].seqNo + j && db[lo].seqNo == db[0].seqNo + lo;
    }
    var z := Located(compute, window, opts, rs, db, |c| - 1);
    assert db[z].seqNo == db[0].seqNo + z && db[lo].seqNo == db[0].seqNo + lo;
  }

  /** Where record i of the mirror's chain stands in the database. */
  lemma Located(compute: Hasher, window: nat, opts: Opts, rs: seq<Rec>, db: seq<Rec>, i: nat) returns (j: nat)
    requires rs != [] && Acceptable(compute, window, opts, rs) && Within(rs, db)
    requires i < |Chain(rs)|
    ensures j < |db| && db[j].seqNo == Chain(rs)[i].seqNo && db[j].hash == Chain(rs)[i].hash
    ensures |Chain(rs)| > 0 && Chain(rs)[i].seqNo == Chain(rs)[0].seqNo + i
  {
    var start := AcceptableStarts(compute, window, opts, rs);
    CollectValue(map[], rs, start + i);
    var r := Chain(rs)[i];
    assert r in rs;
    var d :| d in db && d.seqNo == r.seqNo && d.hash == r.hash;
    j :| 0 <= j < |db| && db[j] == d;
  }

  /** What a mirror still holds and the database no longer does is seen, although the
      shortened database passes by itself: always while a row is left, and with none left
      exactly where nothing says that there ever was one. */
  lemma TruncationSeen(compute: Hasher, window: nat, pruned: Option<Anchor>, minted: bool, c: seq<Rec>, k: nat,
      opts: Opts, rs: seq<Rec>, r: Rec)
    requires window > 0 && Genuine(compute, RowsOpen(pruned), c) && k <= |c|
    requires (forall d | d in c :: d.seqNo >= 1) && forall r | r in rs :: r.seqNo >= 1
    requires r in rs && forall d | d in c[..k] :: d.seqNo != r.seqNo
    ensures VerifyRows(compute, window, Items(c[..k]), pruned, minted).OK() <==> k > 0 || !minted
    ensures !Assess(compute, window, pruned, minted, c[..k], opts, Items(rs)).OK()
  {
    hide Verify, Compare, Acceptable;
    var db := c[..k];
    assert Ascending(db);
    if k > 0 {
      PrefixGenuine(compute, RowsOpen(pruned), c, k);
      Genuinely(compute, window, RowsOpen(pruned), db, db);
      VerifyExact(compute, window, db, RowsOpen(pruned));
    } else {
      ScanRefined(compute, window, RowsOpen(pruned), db);
    }
    if Assess(compute, window, pruned, minted, db, opts, Items(rs)).OK() {
      VerifyExact(compute, window, rs, opts);
      CleanWithin(compute, window, db, opts, rs);
      assert false;
    }
  }
}
