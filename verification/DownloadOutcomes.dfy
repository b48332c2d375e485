/** How a download ends, told by what the outside did, and what is answered about it. */
module DownloadOutcomes {
  import opened Prelude
  import opened Manifest
  import opened Staging
  import opened Download
  import opened DownloadLaws
  import opened DownloadSteps
  import DownloadRuns

  /** The last content that arrives of file i is what the list says, and the fetch says so. */
  predicate Arrives(es: seq<Entry>, i: nat, f: Fate, sha: string -> string)
    requires i < |es|
  {
    && f.room(i) && f.fetched(i) && f.arrives(i) != []
    && sha(f.arrives(i)[|f.arrives(i)| - 1]) == es[i].sum
  }

  /** Everything a download needs: the right list with something in it, its sizes, each
      file, the list written out in full, and the rename. */
  predicate AllWell(req: Request, f: Fate, sha: string -> string) {
    var es := Entries(req);
    && (req.pin == "" || sha(req.body) == req.pin) && es != [] && f.made && f.sized
    && (forall i | 0 <= i < |es| :: Arrives(es, i, f, sha))
    && f.listed && f.lists != [] && f.lists[|f.lists| - 1] == req.body && f.renames
  }

  /** The files from i on are not in the scratch directory yet. */
  predicate Unfetched(req: Request, es: seq<Entry>, i: nat, fs: Fs)
    requires req.dir != [] && i <= |es|
  {
    forall j | i <= j < |es| :: PathOf(Scratch(req.dir), es[j].path) !in fs
  }

  lemma LastWritten(d: Disk, p: Path, contents: seq<string>)
    ensures Last(d, Writes(d, p, contents)) ==
      if contents == [] then d else Put(d, p, contents[|contents| - 1])
  {
  }

  lemma OneEntered(req: Request, es: seq<Entry>, i: nat, d: Disk, f: Fate, sha: string -> string)
    requires req.dir != [] && i < |es| && AllInside(es) && Distinct(es) && Unfetched(req, es, i, d.fs)
    requires !Exists(d.fs, req.dir) && forall k :: f.record(k)
    ensures var (one, ok) := Entered(req, es[i], i, d, f, sha);
      var z := Last(d, one);
      && (ok <==> Arrives(es, i, f, sha)) && (!ok ==> z.verdict == Some("corrupt"))
      && !Exists(z.fs, req.dir) && Unfetched(req, es, i + 1, z.fs)
  {
    hide PathOf, AllInside, Distinct;
    var tmp := Scratch(req.dir);
    var p := PathOf(tmp, es[i].path);
    LastWritten(d, p, f.arrives(i));
    assert Inside(es[i].path) by { InsideAt(es, i); }
    EntryPath(tmp, es[i]);
    Apart(req.dir, p);
    forall j | i < j < |es| ensures PathOf(tmp, es[j].path) != p {
      InsideAt(es, j);
      DistinctAt(es, i, j);
      PathsApart(tmp, es[i], es[j]);
    }
    hide Inside;
  }

  lemma InsideAt(es: seq<Entry>, i: nat)
    requires i < |es| && AllInside(es)
    ensures Inside(es[i].path)
  {
  }

  lemma FetchStep(req: Request, es: seq<Entry>, i: nat, d: Disk, f: Fate, sha: string -> string)
    requires req.dir != [] && i < |es|
    ensures var (one, ok) := Entered(req, es[i], i, d, f, sha);
      var rest := Fetch(req, es, i + 1, Last(d, one), f, sha);
      Fetch(req, es, i, d, f, sha) == if ok then (one + rest.0, rest.1) else (one, false)
  {
    hide Entered, Last;
  }

  /** Where fetching from i on ends, in terms of where it ends from i + 1 on. */
  lemma FetchEnd(req: Request, es: seq<Entry>, i: nat, d: Disk, f: Fate, sha: string -> string)
      returns (z: Disk, ok: bool)
    requires req.dir != [] && i < |es|
    ensures z == Last(d, Entered(req, es[i], i, d, f, sha).0) && ok == Entered(req, es[i], i, d, f, sha).1
    ensures ok ==>
      && Fetch(req, es, i, d, f, sha).1 == Fetch(req, es, i + 1, z, f, sha).1
      && Last(d, Fetch(req, es, i, d, f, sha).0) == Last(z, Fetch(req, es, i + 1, z, f, sha).0)
    ensures !ok ==> !Fetch(req, es, i, d, f, sha).1 && Last(d, Fetch(req, es, i, d, f, sha).0) == z
  {
    hide Entered, Last, Fetch;
    FetchStep(req, es, i, d, f, sha);
    var one := Entered(req, es[i], i, d, f, sha).0;
    ok := Entered(req, es[i], i, d, f, sha).1;
    z := Last(d, one);
    LastConcat(d, one, Fetch(req, es, i + 1, z, f, sha).0);
  }

  /** Every file from i on arrives. */
  predicate RestArrive(es: seq<Entry>, i: nat, f: Fate, sha: string -> string)
    requires i <= |es|
  {
    forall j | i <= j < |es| :: Arrives(es, j, f, sha)
  }

  lemma RestStep(es: seq<Entry>, i: nat, f: Fate, sha: string -> string)
    requires i < |es|
    ensures RestArrive(es, i, f, sha) <==> Arrives(es, i, f, sha) && RestArrive(es, i + 1, f, sha)
  {
    hide Arrives;
  }

  /** d has nothing of the model and nothing of the files from i on. */
  predicate Before(req: Request, es: seq<Entry>, i: nat, d: Disk)
    requires req.dir != [] && i <= |es|
  {
    Unfetched(req, es, i, d.fs) && !Exists(d.fs, req.dir)
  }

  lemma OneBefore(req: Request, es: seq<Entry>, i: nat, d: Disk, f: Fate, sha: string -> string)
    requires req.dir != [] && i < |es| && AllInside(es) && Distinct(es) && Before(req, es, i, d)
    requires forall k :: f.record(k)
    ensures var (one, ok) := Entered(req, es[i], i, d, f, sha);
      var z := Last(d, one);
      && (ok <==> Arrives(es, i, f, sha)) && (!ok ==> z.verdict == Some("corrupt"))
      && Before(req, es, i + 1, z)
  {
    hide Entered, Last, Arrives, AllInside, Distinct, Unfetched, Exists;
    OneEntered(req, es, i, d, f, sha);
  }

  lemma FetchNone(req: Request, es: seq<Entry>, d: Disk, f: Fate, sha: string -> string)
    requires req.dir != []
    ensures Fetch(req, es, |es|, d, f, sha) == ([], true) && Last(d, []) == d && RestArrive(es, |es|, f, sha)
  {
  }

  lemma {:induction false} FetchOutcome(req: Request, es: seq<Entry>, i: nat, d: Disk, f: Fate, sha: string -> string)
    requires req.dir != [] && i <= |es| && AllInside(es) && Distinct(es) && Before(req, es, i, d)
    requires forall k :: f.record(k)
    ensures var (t, ok) := Fetch(req, es, i, d, f, sha);
      var z := Last(d, t);
      && (ok <==> RestArrive(es, i, f, sha)) && (!ok ==> z.verdict == Some("corrupt"))
      && (ok ==> Before(req, es, |es|, z))
    decreases |es| - i
  {
    hide Entered, AllInside, Distinct, Arrives, Before, RestArrive, Last, Fetch, PathOf, Scratch;
    if i == |es| {
      FetchNone(req, es, d, f, sha);
    } else {
      OneBefore(req, es, i, d, f, sha);
      RestStep(es, i, f, sha);
      var z, ok := FetchEnd(req, es, i, d, f, sha);
      if ok {
        FetchOutcome(req, es, i + 1, z, f, sha);
      }
    }
  }

  lemma PlaceOutcome(req: Request, d: Disk, f: Fate)
    requires req.dir != [] && !Exists(d.fs, req.dir) && forall k :: f.record(k)
    requires f.lists == [] ==> ManifestPath(Scratch(req.dir)) !in d.fs
    ensures var t := Place(req, d, f).0;
      t != [] && t[|t| - 1].verdict ==
        Some(if f.listed && f.lists != [] && f.lists[|f.lists| - 1] == req.body && f.renames then "staged" else "corrupt")
  {
    hide Moved;
    var m := ManifestPath(Scratch(req.dir));
    LastWritten(d, m, f.lists);
    Apart(req.dir, m);
  }

  lemma {:induction false} FetchNoList(req: Request, es: seq<Entry>, i: nat, d: Disk, f: Fate, sha: string -> string)
    requires req.dir != [] && i <= |es| && AllInside(es) && ManifestPath(Scratch(req.dir)) !in d.fs
    ensures ManifestPath(Scratch(req.dir)) !in Last(d, Fetch(req, es, i, d, f, sha).0).fs
    decreases |es| - i
  {
    if i < |es| {
      hide AllInside;
      InsideAt(es, i);
      NotTheList(req, es[i], i, d, f, sha);
      var (one, ok) := Entered(req, es[i], i, d, f, sha);
      hide Entered;
      if ok {
        FetchNoList(req, es, i + 1, Last(d, one), f, sha);
        LastConcat(d, one, Fetch(req, es, i + 1, Last(d, one), f, sha).0);
      }
    }
  }

  lemma NotTheList(req: Request, e: Entry, i: nat, d: Disk, f: Fate, sha: string -> string)
    requires req.dir != [] && Inside(e.path) && ManifestPath(Scratch(req.dir)) !in d.fs
    ensures ManifestPath(Scratch(req.dir)) !in Last(d, Entered(req, e, i, d, f, sha).0).fs
  {
    hide PathOf, Inside;
    DownloadRuns.InsideApart(Scratch(req.dir), e.path);
    LastWritten(d, PathOf(Scratch(req.dir), e.path), f.arrives(i));
  }

  /** From a disk that has nothing of the model, with every verdict recorded: a download
      ends in "staged" exactly when all went well, and otherwise in "corrupt"; and it is
      staged exactly when what is then in the directory verifies. */
  lemma FreshExact(req: Request, d: Disk, f: Fate, sha: string -> string)
    requires req.dir != [] && AllInside(Entries(req)) && forall k :: f.record(k)
    requires !Exists(d.fs, req.dir) && !Exists(d.fs, Scratch(req.dir)) && d.verdict != Some("staged")
    ensures var t := Run(req, d, f, sha);
      && t != [] && var z := t[|t| - 1];
      && z.verdict == Some(if AllWell(req, f, sha) then "staged" else "corrupt")
      && (AllWell(req, f, sha) ==> VerifyStaged(z.fs, req.dir, "", sha).Staged?)
  {
    hide Fetch, Place, VerifyStaged, AllInside, Exists, Arrives, ParseManifest, Distinct, Unfetched;
    var es := Entries(req);
    if Hopeless(req, f, sha) {
    } else {
      var begun := Set(d, "staging", f);
      EntriesDistinct(req);
      NothingYet(req, d.fs);
      FetchOutcome(req, es, 0, begun, f, sha);
      FetchNoList(req, es, 0, begun, f, sha);
      var (t, ok) := Fetch(req, es, 0, begun, f, sha);
      if ok {
        var checked := Set(Last(begun, t), "verifying", f);
        PlaceOutcome(req, checked, f);
      }
    }
    RunLast(req, d, f, sha);
  }

  lemma RunLast(req: Request, d: Disk, f: Fate, sha: string -> string)
    requires req.dir != [] && AllInside(Entries(req)) && !Exists(d.fs, req.dir)
    ensures var t := Run(req, d, f, sha); t != [] ==>
      (t[|t| - 1].verdict == Some("staged") && d.verdict != Some("staged") ==>
         VerifyStaged(t[|t| - 1].fs, req.dir, "", sha).Staged?)
  {
    hide VerifyStaged, Run, AllInside, Exists;
    if d.verdict != Some("staged") {
      DownloadRuns.AbsentConsistent(d, req.dir, sha);
      RunConsistent(req, d, f, sha);
    }
  }

  lemma NothingYet(req: Request, fs: Fs)
    requires req.dir != [] && AllInside(Entries(req)) && !Exists(fs, Scratch(req.dir))
    ensures Unfetched(req, Entries(req), 0, fs) && ManifestPath(Scratch(req.dir)) !in fs
  {
    hide PathOf, Inside, Entries;
    var es, tmp := Entries(req), Scratch(req.dir);
    forall j | 0 <= j < |es| ensures PathOf(tmp, es[j].path) !in fs {
      EntryPath(tmp, es[j]);
    }
    assert tmp <= ManifestPath(tmp);
  }

  // ---------------------------------------------------------------------
  // What is answered.

  /** A final verdict is answered whatever else goes on; while a unit works, what it last
      recorded, and "staging" before it has; and with neither a download is started and
      "staging" answered. */
  lemma StatusExact(n: DownloadRuns.Node)
    ensures var v := n.disk.verdict;
      && (v == Some("staged") || v == Some("corrupt") ==> DownloadRuns.Status(n) == v.value && !DownloadRuns.WillStart(n))
      && (v != Some("staged") && v != Some("corrupt") ==>
            && (n.unit.Some? ==> DownloadRuns.Status(n) == (if v.Some? then v.value else "staging") && !DownloadRuns.WillStart(n))
            && (n.unit.None? ==> DownloadRuns.Status(n) == "staging" && (DownloadRuns.WillStart(n) <==> n.reset.None?)))
  {
  }
}
