/** The download one step at a time, each step acting on whatever the disk then holds,
    so that something else may come in between. */
module DownloadSteps {
  import opened Prelude
  import opened Manifest
  import opened Staging
  import opened Download
  import opened DownloadLaws

  /** Where the unit stands: before anything, at an entry, with k pieces of an entry
      written, with k pieces of the manifest written, with the directory in place, or
      done. */
  datatype Pc = Opening | At(i: nat) | Arriving(i: nat, k: nat) | Listing(k: nat) | Placed | Over

  function Entries(req: Request): seq<Manifest.Entry> {
    var es := ParseManifest(req.body);
    if es.Some? then es.value else []
  }

  predicate Hopeless(req: Request, f: Fate, sha: string -> string) {
    (req.pin != "" && sha(req.body) != req.pin) || Entries(req) == [] || !f.made || !f.sized
  }

  function Arrive(req: Request, i: nat, k: nat, d: Disk, f: Fate, sha: string -> string): (Disk, Pc)
    requires req.dir != [] && i < |Entries(req)|
  {
    var e := Entries(req)[i];
    var p := PathOf(Scratch(req.dir), e.path);
    if k < |f.arrives(i)| then (Put(d, p, f.arrives(i)[k]), Arriving(i, k + 1))
    else if !f.fetched(i) || !Matches(d.fs, p, e.sum, sha) then (Set(d, "corrupt", f), Over)
    else (Set(d, "staging", f), At(i + 1))
  }

  function AtEntry(req: Request, i: nat, d: Disk, f: Fate, sha: string -> string): (Disk, Pc)
    requires req.dir != []
  {
    var es := Entries(req);
    if i >= |es| then (Set(d, "verifying", f), Listing(0))
    else if !f.room(i) then (Set(d, "corrupt", f), Over)
    else if Matches(d.fs, PathOf(Scratch(req.dir), es[i].path), es[i].sum, sha) then (Set(d, "staging", f), At(i + 1))
    else Arrive(req, i, 0, d, f, sha)
  }

  function List(req: Request, k: nat, d: Disk, f: Fate): (Disk, Pc)
    requires req.dir != []
  {
    var tmp := Scratch(req.dir);
    if k < |f.lists| then (Put(d, ManifestPath(tmp), f.lists[k]), Listing(k + 1))
    else if !f.listed || !(ManifestPath(tmp) in d.fs && d.fs[ManifestPath(tmp)] == req.body) || !f.renames
            || Exists(d.fs, req.dir) then (Set(d, "corrupt", f), Over)
    else (d.(fs := Moved(d.fs, tmp, req.dir)), Placed)
  }

  function Step(req: Request, pc: Pc, d: Disk, f: Fate, sha: string -> string): (Disk, Pc)
    requires req.dir != []
  {
    match pc
    case Opening => if Hopeless(req, f, sha) then (Set(d, "corrupt", f), Over) else (Set(d, "staging", f), At(0))
    case At(i) => AtEntry(req, i, d, f, sha)
    case Arriving(i, k) => if i < |Entries(req)| then Arrive(req, i, k, d, f, sha) else (d, Over)
    case Listing(k) => List(req, k, d, f)
    case Placed => (Set(d, "staged", f), Over)
    case Over => (d, Over)
  }

  // ---------------------------------------------------------------------
  // Left alone, the steps are the download.

  function Phase(pc: Pc): nat {
    match pc
    case Opening => 4
    case At(_) => 3
    case Arriving(_, _) => 3
    case Listing(_) => 2
    case Placed => 1
    case Over => 0
  }

  function Left(n: nat, k: nat): nat {
    if k < n then n - k else 0
  }

  function Round(req: Request, pc: Pc, f: Fate): nat {
    match pc
    case At(i) => Left(|Entries(req)|, i)
    case Arriving(i, _) => Left(|Entries(req)|, i)
    case Listing(k) => Left(|f.lists|, k)
    case _ => 0
  }

  function Piece(pc: Pc, f: Fate): nat {
    match pc
    case At(i) => |f.arrives(i)| + 1
    case Arriving(i, k) => Left(|f.arrives(i)|, k)
    case _ => 0
  }

  lemma StepGoesOn(req: Request, pc: Pc, d: Disk, f: Fate, sha: string -> string)
    requires req.dir != [] && !pc.Over?
    ensures var next := Step(req, pc, d, f, sha).1;
      || Phase(next) < Phase(pc)
      || (Phase(next) == Phase(pc) && Round(req, next, f) < Round(req, pc, f))
      || (Phase(next) == Phase(pc) && Round(req, next, f) == Round(req, pc, f) && Piece(next, f) < Piece(pc, f))
  {
    hide Entries, Set, Put, Matches, Hopeless, Moved, PathOf, Exists;
  }

  /** Every state passed through from a point on. */
  function Walk(req: Request, pc: Pc, d: Disk, f: Fate, sha: string -> string): seq<Disk>
    requires req.dir != []
    decreases Phase(pc), Round(req, pc, f), Piece(pc, f)
  {
    if pc.Over? then []
    else
      var (e, next) := Step(req, pc, d, f, sha);
      StepGoesOn(req, pc, d, f, sha);
      [e] + Walk(req, next, e, f, sha)
  }

  lemma WalkStep(req: Request, pc: Pc, d: Disk, f: Fate, sha: string -> string)
    requires req.dir != [] && !pc.Over?
    ensures var (e, next) := Step(req, pc, d, f, sha);
      Walk(req, pc, d, f, sha) == [e] + Walk(req, next, e, f, sha)
  {
    hide Step;
  }

  lemma WalkOver(req: Request, d: Disk, f: Fate, sha: string -> string)
    requires req.dir != []
    ensures Walk(req, Over, d, f, sha) == []
  {
  }

  lemma {:induction false} WalkListing(req: Request, k: nat, d: Disk, w: Disk, f: Fate, sha: string -> string)
    requires req.dir != [] && k <= |f.lists|
    requires w == Last(d, Writes(d, ManifestPath(Scratch(req.dir)), f.lists[..k]))
    ensures Walk(req, Listing(k), w, f, sha) == Place(req, d, f).0[k..]
    decreases |f.lists| - k
  {
    hide Set, Moved, Walk;
    var p := ManifestPath(Scratch(req.dir));
    WalkStep(req, Listing(k), w, f, sha);
    var (e, next) := Step(req, Listing(k), w, f, sha);
    var all := Place(req, d, f).0;
    WalkOver(req, e, f, sha);
    if k < |f.lists| {
      PutLast(d, p, f.lists[..k], f.lists[k]);
      assert e == all[k];
      WalkListing(req, k + 1, d, e, f, sha);
    } else {
      assert f.lists[..k] == f.lists;
      if next.Placed? {
        WalkStep(req, Placed, e, f, sha);
        WalkOver(req, Set(e, "staged", f), f, sha);
      }
    }
  }

  /** From an entry of which k pieces are written to the next one. */
  lemma {:induction false} WalkArriving(req: Request, i: nat, k: nat, d: Disk, w: Disk, f: Fate, sha: string -> string)
    requires req.dir != [] && i < |Entries(req)| && k <= |f.arrives(i)|
    requires var p := PathOf(Scratch(req.dir), Entries(req)[i].path);
      f.room(i) && !Matches(d.fs, p, Entries(req)[i].sum, sha) && w == Last(d, Writes(d, p, f.arrives(i)[..k]))
    ensures var (one, ok) := Entered(req, Entries(req)[i], i, d, f, sha);
      k < |one| && Walk(req, Arriving(i, k), w, f, sha) ==
        one[k..] + if ok then Walk(req, At(i + 1), Last(d, one), f, sha) else []
    decreases |f.arrives(i)| - k
  {
    hide Set, PathOf, Entries, Walk;
    var p := PathOf(Scratch(req.dir), Entries(req)[i].path);
    var (one, ok) := Entered(req, Entries(req)[i], i, d, f, sha);
    WalkStep(req, Arriving(i, k), w, f, sha);
    var (e, next) := Step(req, Arriving(i, k), w, f, sha);
    WalkOver(req, e, f, sha);
    if k < |f.arrives(i)| {
      PutLast(d, p, f.arrives(i)[..k], f.arrives(i)[k]);
      assert e == one[k];
      WalkArriving(req, i, k + 1, d, e, f, sha);
    } else {
      assert f.arrives(i)[..k] == f.arrives(i);
      assert one[k..] == [e];
    }
  }

  function Fetching(req: Request, i: nat, d: Disk, f: Fate, sha: string -> string): seq<Disk>
    requires req.dir != [] && i <= |Entries(req)|
  {
    var (t, ok) := Fetch(req, Entries(req), i, d, f, sha);
    var checked := Set(Last(d, t), "verifying", f);
    if ok then t + [checked] + Place(req, checked, f).0 else t
  }

  lemma {:induction false} WalkEntry(req: Request, i: nat, d: Disk, f: Fate, sha: string -> string)
    requires req.dir != [] && i <= |Entries(req)|
    ensures Walk(req, At(i), d, f, sha) == Fetching(req, i, d, f, sha)
    decreases |Entries(req)| - i
  {
    hide Set, PathOf, Entries, Walk, Place;
    WalkStep(req, At(i), d, f, sha);
    if i == |Entries(req)| {
      var checked := Set(d, "verifying", f);
      WalkListing(req, 0, checked, checked, f, sha);
      assert [] + [checked] == [checked];
    } else {
      EntryThen(req, i, d, f, sha);
      var (one, ok) := Entered(req, Entries(req)[i], i, d, f, sha);
      if ok {
        WalkEntry(req, i + 1, Last(d, one), f, sha);
        FetchingOn(req, i, d, f, sha);
      }
    }
  }

  lemma EntryThen(req: Request, i: nat, d: Disk, f: Fate, sha: string -> string)
    requires req.dir != [] && i < |Entries(req)|
    ensures var (one, ok) := Entered(req, Entries(req)[i], i, d, f, sha);
      Walk(req, At(i), d, f, sha) == one + if ok then Walk(req, At(i + 1), Last(d, one), f, sha) else []
  {
    hide Set, PathOf, Entries, Walk;
    var e := Entries(req)[i];
    var p := PathOf(Scratch(req.dir), e.path);
    var (one, ok) := Entered(req, e, i, d, f, sha);
    WalkStep(req, At(i), d, f, sha);
    WalkOver(req, Step(req, At(i), d, f, sha).0, f, sha);
    if f.room(i) && !Matches(d.fs, p, e.sum, sha) {
      WalkArriving(req, i, 0, d, d, f, sha);
      WalkStep(req, Arriving(i, 0), d, f, sha);
      assert one[0..] == one;
    }
  }

  lemma FetchingOn(req: Request, i: nat, d: Disk, f: Fate, sha: string -> string)
    requires req.dir != [] && i < |Entries(req)|
    requires Entered(req, Entries(req)[i], i, d, f, sha).1
    ensures var one := Entered(req, Entries(req)[i], i, d, f, sha).0;
      Fetching(req, i, d, f, sha) == one + Fetching(req, i + 1, Last(d, one), f, sha)
  {
    hide Set, Entries, Entered, Place, Last;
    var one := Entered(req, Entries(req)[i], i, d, f, sha).0;
    var e := Last(d, one);
    var (rest, done) := Fetch(req, Entries(req), i + 1, e, f, sha);
    LastConcat(d, one, rest);
    var checked := Set(Last(e, rest), "verifying", f);
    assert one + rest + [checked] + Place(req, checked, f).0 == one + (rest + [checked] + Place(req, checked, f).0);
  }

  /** Nothing coming in between, the steps pass through exactly the states of the
      download. */
  lemma WalkIsRun(req: Request, d: Disk, f: Fate, sha: string -> string)
    requires req.dir != []
    ensures Walk(req, Opening, d, f, sha) == Run(req, d, f, sha)
  {
    hide Set, Walk, Fetch, Place, Last, ParseManifest;
    WalkStep(req, Opening, d, f, sha);
    WalkOver(req, Set(d, "corrupt", f), f, sha);
    if !Hopeless(req, f, sha) {
      var begun := Set(d, "staging", f);
      WalkEntry(req, 0, begun, f, sha);
      var (t, ok) := Fetch(req, Entries(req), 0, begun, f, sha);
      var checked := Set(Last(begun, t), "verifying", f);
      assert [begun] + (t + [checked] + Place(req, checked, f).0) == [begun] + t + [checked] + Place(req, checked, f).0;
    }
  }

  // ---------------------------------------------------------------------
  // Every step keeps the invariant.

  /** What the disk holds when the unit stands at pc. */
  ghost predicate Ready(req: Request, pc: Pc, d: Disk, sha: string -> string)
    requires req.dir != []
  {
    var es := Entries(req);
    match pc
    case Opening => true
    case At(i) => i <= |es| && es != [] && Fetched(req, es, i, d.fs, sha)
    case Arriving(i, _) => i < |es| && Fetched(req, es, i, d.fs, sha)
    case Listing(_) => es != [] && Fetched(req, es, |es|, d.fs, sha)
    case Placed => VerifyStaged(d.fs, req.dir, "", sha).Staged?
    case Over => true
  }

  lemma SetConsistent(d: Disk, state: string, f: Fate, dir: Path, sha: string -> string)
    requires Consistent(d, dir, sha) && state in {"corrupt", "staging", "verifying"}
    ensures Consistent(Set(d, state, f), dir, sha) && Set(d, state, f).fs == d.fs
  {
    hide VerifyStaged, Exists;
  }

  lemma ArriveSafe(req: Request, i: nat, k: nat, d: Disk, f: Fate, sha: string -> string)
    requires req.dir != [] && i < |Entries(req)| && AllInside(Entries(req)) && Distinct(Entries(req))
    requires Consistent(d, req.dir, sha) && Fetched(req, Entries(req), i, d.fs, sha)
    ensures var (e, next) := Arrive(req, i, k, d, f, sha); Consistent(e, req.dir, sha) && Ready(req, next, e, sha)
  {
    hide Consistent, Near, AllInside, Distinct, PathOf, Entries, Set, Put;
    SetConsistent(d, "corrupt", f, req.dir, sha);
    SetConsistent(d, "staging", f, req.dir, sha);
    if k < |f.arrives(i)| {
      var content := f.arrives(i)[k];
      PutFetched(req, Entries(req), i, d, content, sha);
      NearConsistent(d, Put(d, PathOf(Scratch(req.dir), Entries(req)[i].path), content), req.dir, sha);
    }
  }

  lemma ListSafe(req: Request, k: nat, d: Disk, f: Fate, sha: string -> string)
    requires req.dir != [] && AllInside(Entries(req)) && Entries(req) != []
    requires Consistent(d, req.dir, sha) && Fetched(req, Entries(req), |Entries(req)|, d.fs, sha)
    ensures var (e, next) := List(req, k, d, f); Consistent(e, req.dir, sha) && Ready(req, next, e, sha)
  {
    hide Consistent, Near, AllInside, PathOf, Set, Put, Moved, Fetched, VerifyStaged, ParseManifest;
    SetConsistent(d, "corrupt", f, req.dir, sha);
    var p := ManifestPath(Scratch(req.dir));
    if k < |f.lists| {
      ListingFetched(req, Entries(req), d, f.lists[k], sha);
      PutNear(d, p, f.lists[k], req.dir);
      NearConsistent(d, Put(d, p, f.lists[k]), req.dir, sha);
    } else if List(req, k, d, f).1.Placed? {
      PlacedStaged(req, Entries(req), d.fs, sha);
      StagedWhole(List(req, k, d, f).0, req.dir, sha);
    }
  }

  lemma EntriesDistinct(req: Request)
    ensures Distinct(Entries(req))
  {
    hide Lines, Distinct;
    NoneDistinct();
    if Lines(req.body).Some? {
      ParsedDistinct(Lines(req.body).value);
    }
  }

  /** Whatever the disk held before it, a step of the unit leaves the directory absent
      or verified, and itself ready for the next. */
  lemma StepSafe(req: Request, pc: Pc, d: Disk, f: Fate, sha: string -> string)
    requires req.dir != [] && AllInside(Entries(req))
    requires Consistent(d, req.dir, sha) && Ready(req, pc, d, sha)
    ensures var (e, next) := Step(req, pc, d, f, sha); Consistent(e, req.dir, sha) && Ready(req, next, e, sha)
  {
    hide Consistent, AllInside, Distinct, PathOf, Set, Entries, Hopeless, VerifyStaged, Arrive, List;
    EntriesDistinct(req);
    SetConsistent(d, "corrupt", f, req.dir, sha);
    SetConsistent(d, "staging", f, req.dir, sha);
    SetConsistent(d, "verifying", f, req.dir, sha);
    match pc
    case Opening => HopefulEntries(req, f, sha);
    case At(i) =>
      if i < |Entries(req)| {
        ArriveSafe(req, i, 0, d, f, sha);
      }
    case Arriving(i, k) => ArriveSafe(req, i, k, d, f, sha);
    case Listing(k) => ListSafe(req, k, d, f, sha);
    case Placed =>
      SetFiles(d, "staged", f);
      StagedWhole(Set(d, "staged", f), req.dir, sha);
    case Over =>
  }

  lemma HopefulEntries(req: Request, f: Fate, sha: string -> string)
    ensures !Hopeless(req, f, sha) ==> Entries(req) != []
  {
  }

  lemma {:induction false} WalkConsistent(req: Request, pc: Pc, d: Disk, f: Fate, sha: string -> string, i: nat)
    requires req.dir != [] && AllInside(Entries(req))
    requires Consistent(d, req.dir, sha) && Ready(req, pc, d, sha) && i < |Walk(req, pc, d, f, sha)|
    ensures Consistent(Walk(req, pc, d, f, sha)[i], req.dir, sha)
    decreases Phase(pc), Round(req, pc, f), Piece(pc, f)
  {
    hide Consistent, Ready, AllInside, Entries, Step, Walk, Phase, Round, Piece;
    if pc.Over? {
      WalkOver(req, d, f, sha);
    } else {
      WalkStep(req, pc, d, f, sha);
      StepSafe(req, pc, d, f, sha);
      StepGoesOn(req, pc, d, f, sha);
      var (e, next) := Step(req, pc, d, f, sha);
      if i > 0 {
        WalkConsistent(req, next, e, f, sha, i - 1);
      }
    }
  }

  /** At every step of a download, and so after a crash at any of them, whatever
      fails: the model's directory is absent or verifies in full against the manifest
      in it, and "staged" is recorded only of a directory that does. */
  lemma RunConsistent(req: Request, d: Disk, f: Fate, sha: string -> string)
    requires req.dir != [] && Consistent(d, req.dir, sha) && AllInside(Entries(req))
    ensures forall i | 0 <= i < |Run(req, d, f, sha)| :: Consistent(Run(req, d, f, sha)[i], req.dir, sha)
  {
    hide Consistent, AllInside, Entries, Walk, Run;
    WalkIsRun(req, d, f, sha);
    forall i | 0 <= i < |Run(req, d, f, sha)| ensures Consistent(Run(req, d, f, sha)[i], req.dir, sha) {
      WalkConsistent(req, Opening, d, f, sha, i);
    }
  }

  /** A unit that records "corrupt" is done. */
  lemma CorruptEnds(req: Request, pc: Pc, d: Disk, f: Fate, sha: string -> string)
    requires req.dir != [] && d.verdict != Some("corrupt")
    ensures var (e, next) := Step(req, pc, d, f, sha); e.verdict == Some("corrupt") ==> next.Over?
  {
    hide Matches, PathOf, Entries, Moved, Exists, Hopeless;
  }
}
