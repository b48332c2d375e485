/** The agent polling and resetting, the unit working, and either of them dying, in any
    order and in the middle of anything. */
module DownloadRuns {
  import opened Prelude
  import opened Manifest
  import opened Staging
  import opened Download
  import opened DownloadLaws
  import opened DownloadSteps

  datatype Job = Job(req: Request, fate: Fate, pc: Pc)

  /** What a reset under way is removing: the model's directory, what a download left
      next to it, the recorded verdict. */
  datatype Removing = Model | Leftover | Record

  datatype Node = Node(disk: Disk, unit: Option<Job>, reset: Option<Removing>)

  /** starts: the manager starts the unit. stops: it stops it when a reset asks; the
      reset goes on either way. Erase removes some of the files a deletion is about, and
      Next ends a deletion: ok when nothing is left of it. */
  datatype Event =
    | Poll(body: string, pin: string, fate: Fate, starts: bool)
    | Tick | UnitDies | AgentDies
    | Reset(stops: bool) | Erase(gone: set<Path>) | Next(ok: bool)

  predicate Terminal(d: Disk) {
    d.verdict == Some("staged") || d.verdict == Some("corrupt")
  }

  /** What the agent answers for a model: a recorded verdict if it is final, a running
      unit's progress, and otherwise a download is started. */
  function Status(n: Node): string {
    if Terminal(n.disk) then n.disk.verdict.value
    else if n.unit.Some? && n.disk.verdict.Some? then n.disk.verdict.value
    else "staging"
  }

  predicate WillStart(n: Node) {
    !Terminal(n.disk) && n.unit.None? && n.reset.None?
  }

  function Without(fs: Fs, gone: set<Path>): Fs {
    map p | p in fs && p !in gone :: fs[p]
  }

  function Below(fs: Fs, dir: Path): set<Path> {
    set p | p in fs && dir <= p
  }

  /** The tree a reset under way is deleting. */
  function Target(dir: Path, at: Removing): Path
    requires dir != []
  {
    if at.Model? then dir else Scratch(dir)
  }

  function Do(n: Node, dir: Path, e: Event, sha: string -> string): Node
    requires dir != [] && (n.unit.Some? ==> n.unit.value.req.dir == dir)
    ensures Do(n, dir, e, sha).unit.Some? ==> Do(n, dir, e, sha).unit.value.req.dir == dir
  {
    match e
    case Poll(body, pin, fate, starts) =>
      if WillStart(n) && starts then n.(unit := Some(Job(Request(dir, body, pin), fate, Opening))) else n
    case Tick =>
      if n.unit.None? then n
      else if n.unit.value.pc.Over? then n.(unit := None)
      else
        var j := n.unit.value;
        var (d, pc) := Step(j.req, j.pc, n.disk, j.fate, sha);
        n.(disk := d, unit := Some(j.(pc := pc)))
    case UnitDies => n.(unit := None)
    case AgentDies => n.(reset := None)
    case Reset(stops) =>
      if n.reset.Some? then n else Node(n.disk, if stops then None else n.unit, Some(Model))
    case Erase(gone) =>
      if n.reset.None? || n.reset.value.Record? then n
      else n.(disk := n.disk.(fs := Without(n.disk.fs, gone * Below(n.disk.fs, Target(dir, n.reset.value)))))
    case Next(ok) => Ended(n, dir, ok)
  }

  /** A deletion ends and the next one begins, whether or not it removed everything. */
  function Ended(n: Node, dir: Path, ok: bool): (m: Node)
    requires dir != []
    ensures m.unit == n.unit
  {
    match n.reset
    case None => n
    case Some(Record) => n.(disk := n.disk.(verdict := if ok then None else n.disk.verdict), reset := None)
    case Some(at) =>
      var fs := n.disk.fs;
      n.(disk := n.disk.(fs := if ok then Without(fs, Below(fs, Target(dir, at))) else fs),
         reset := Some(if at.Model? then Leftover else Record))
  }

  predicate OfDir(n: Node, dir: Path) {
    n.unit.Some? ==> n.unit.value.req.dir == dir
  }

  function After(n: Node, dir: Path, es: seq<Event>, sha: string -> string): (m: Node)
    requires dir != [] && OfDir(n, dir)
    ensures OfDir(m, dir)
    decreases |es|
  {
    if es == [] then n else Do(After(n, dir, es[..|es| - 1], sha), dir, es[|es| - 1], sha)
  }

  // ---------------------------------------------------------------------
  // Every run whose resets run through.

  /** A unit that stands here has done nothing a reset takes away: it relies on no file
      of the scratch directory and of the model's. */
  predicate Early(pc: Pc) {
    pc in {Opening, Over, At(0)} || (pc.Arriving? && pc.i == 0)
  }

  predicate Puts(j: Job, d: Disk)
    requires j.req.dir != []
  {
    j.pc.Listing? && List(j.req, j.pc.k, d, j.fate).1.Placed?
  }

  /** The event does not cut a reset short where that matters: the model's directory goes
      as a whole, a unit that was not stopped puts nothing in its place while the scratch
      directory goes and has got nowhere when that is done, and a recorded success goes.
      What is left of the scratch directory does not matter. */
  predicate Uncut(n: Node, dir: Path, e: Event)
    requires dir != [] && OfDir(n, dir)
  {
    match e
    case Poll(body, pin, _, _) => AllInside(Entries(Request([], body, pin)))
    case Tick => n.reset == Some(Leftover) && n.unit.Some? ==> !Puts(n.unit.value, n.disk)
    case AgentDies =>
      n.reset.None? || (!n.reset.value.Model? && n.disk.verdict != Some("staged") && (n.reset.value.Leftover? ==> Idle(n)))
    case Next(ok) =>
      (match n.reset
       case None => true
       case Some(Model) => ok
       case Some(Leftover) => Idle(n)
       case Some(Record) => ok || n.disk.verdict != Some("staged"))
    case _ => true
  }

  /** No unit works, or one that has got nowhere. */
  predicate Idle(n: Node) {
    n.unit.Some? ==> Early(n.unit.value.pc)
  }

  ghost predicate AllUncut(n: Node, dir: Path, es: seq<Event>, sha: string -> string)
    requires dir != [] && OfDir(n, dir)
    decreases |es|
  {
    es == [] ||
    (AllUncut(n, dir, es[..|es| - 1], sha) && Uncut(After(n, dir, es[..|es| - 1], sha), dir, es[|es| - 1]))
  }

  /** Where a unit may stand at all. */
  predicate Stands(req: Request, pc: Pc) {
    match pc
    case At(i) => Entries(req) != [] && i <= |Entries(req)|
    case Arriving(i, _) => i < |Entries(req)|
    case Listing(_) => Entries(req) != []
    case _ => true
  }

  predicate JobLoose(j: Job, d: Disk, dir: Path) {
    && j.req.dir == dir && AllInside(Entries(j.req)) && Stands(j.req, j.pc)
    && (d.verdict == Some("corrupt") ==> j.pc.Over?)
  }

  ghost predicate JobSafe(j: Job, d: Disk, dir: Path, sha: string -> string)
    requires dir != []
  {
    JobLoose(j, d, dir) && Ready(j.req, j.pc, d, sha)
  }

  /** Outside a reset the directory is absent or verified, and a unit ready for its next
      step. Inside one the directory, once it is gone, stays gone until the scratch
      directory is, and is from then on absent or verified again. */
  ghost predicate Safe(n: Node, dir: Path, sha: string -> string)
    requires dir != []
  {
    match n.reset
    case None => Consistent(n.disk, dir, sha) && (n.unit.Some? ==> JobSafe(n.unit.value, n.disk, dir, sha))
    case Some(Model) => n.unit.Some? ==> JobLoose(n.unit.value, n.disk, dir)
    case Some(Leftover) => !Exists(n.disk.fs, dir) && (n.unit.Some? ==> JobLoose(n.unit.value, n.disk, dir))
    case Some(Record) => Whole(n.disk.fs, dir, sha) && (n.unit.Some? ==> JobSafe(n.unit.value, n.disk, dir, sha))
  }

  lemma SameEntries(dir: Path, body: string, pin: string)
    ensures Entries(Request(dir, body, pin)) == Entries(Request([], body, pin))
  {
    hide ParseManifest;
  }

  lemma StepStands(req: Request, pc: Pc, d: Disk, f: Fate, sha: string -> string)
    requires req.dir != [] && Stands(req, pc)
    ensures Stands(req, Step(req, pc, d, f, sha).1)
  {
    hide Set, Put, Matches, PathOf, Moved, Exists, ParseManifest;
  }

  lemma EarlyReady(req: Request, pc: Pc, d: Disk, sha: string -> string)
    requires req.dir != [] && Stands(req, pc) && Early(pc)
    ensures Ready(req, pc, d, sha)
  {
    hide VerifyStaged, Entries;
  }

  lemma TickLoose(n: Node, dir: Path, sha: string -> string)
    requires dir != [] && OfDir(n, dir) && n.unit.Some? && JobLoose(n.unit.value, n.disk, dir)
    ensures var m := Do(n, dir, Tick, sha); m.reset == n.reset && (m.unit.Some? ==> JobLoose(m.unit.value, m.disk, dir))
  {
    hide Step, Entries, AllInside, Stands;
    var j := n.unit.value;
    if !j.pc.Over? {
      StepStands(j.req, j.pc, n.disk, j.fate, sha);
      CorruptEnds(j.req, j.pc, n.disk, j.fate, sha);
    }
  }

  /** A step that does not put the directory in place leaves it absent. */
  lemma StepAbsent(req: Request, pc: Pc, d: Disk, f: Fate, sha: string -> string)
    requires req.dir != [] && AllInside(Entries(req)) && Stands(req, pc) && !Exists(d.fs, req.dir)
    requires !(pc.Listing? && List(req, pc.k, d, f).1.Placed?)
    ensures !Exists(Step(req, pc, d, f, sha).0.fs, req.dir)
  {
    hide Matches, Hopeless, Inside, Moved, Entries, PathOf;
    var tmp := Scratch(req.dir);
    if pc.Listing? {
      Apart(req.dir, ManifestPath(tmp));
    }
    if (pc.At? || pc.Arriving?) && pc.i < |Entries(req)| {
      var e := Entries(req)[pc.i];
      EntryPath(tmp, e);
      Apart(req.dir, PathOf(tmp, e.path));
    }
  }

  /** What a step does to the files does not depend on the recorded verdict. */
  lemma StepBlind(req: Request, pc: Pc, d: Disk, f: Fate, sha: string -> string, v: Option<string>)
    requires req.dir != []
    ensures var (a, b) := (Step(req, pc, d, f, sha), Step(req, pc, d.(verdict := v), f, sha));
      a.0.fs == b.0.fs && a.1 == b.1
  {
    hide Matches, Hopeless, Moved, Entries, PathOf, Exists;
  }

  lemma TickWhole(n: Node, dir: Path, sha: string -> string)
    requires dir != [] && OfDir(n, dir) && n.unit.Some? && JobSafe(n.unit.value, n.disk, dir, sha)
    requires Whole(n.disk.fs, dir, sha)
    ensures var m := Do(n, dir, Tick, sha);
      Whole(m.disk.fs, dir, sha) && (m.unit.Some? ==> JobSafe(m.unit.value, m.disk, dir, sha))
  {
    TickLoose(n, dir, sha);
    hide VerifyStaged, Step, Entries, AllInside, Exists, Stands, Fetched;
    var j := n.unit.value;
    if !j.pc.Over? {
      var blank := n.disk.(verdict := None);
      StepBlind(j.req, j.pc, n.disk, j.fate, sha, None);
      ReadyBlind(j.req, j.pc, n.disk, blank, sha);
      StepSafe(j.req, j.pc, blank, j.fate, sha);
      var (e, next) := Step(j.req, j.pc, blank, j.fate, sha);
      ReadyBlind(j.req, next, e, Step(j.req, j.pc, n.disk, j.fate, sha).0, sha);
    }
  }

  lemma ReadyBlind(req: Request, pc: Pc, d: Disk, e: Disk, sha: string -> string)
    requires req.dir != [] && d.fs == e.fs && Ready(req, pc, d, sha)
    ensures Ready(req, pc, e, sha)
  {
    hide VerifyStaged, Entries;
  }

  lemma TickSafe(n: Node, dir: Path, sha: string -> string)
    requires dir != [] && OfDir(n, dir) && Safe(n, dir, sha) && Uncut(n, dir, Tick)
    ensures Safe(Do(n, dir, Tick, sha), dir, sha)
  {
    hide Consistent, Whole, Step, Ready, Entries, AllInside, Exists, Stands, Puts, List;
    if n.unit.Some? {
      var j := n.unit.value;
      TickLoose(n, dir, sha);
      match n.reset
      case None =>
        if !j.pc.Over? {
          StepSafe(j.req, j.pc, n.disk, j.fate, sha);
        }
      case Some(Model) =>
      case Some(Leftover) =>
        if !j.pc.Over? {
          NotPutting(j, n.disk);
          StepAbsent(j.req, j.pc, n.disk, j.fate, sha);
        }
      case Some(Record) => TickWhole(n, dir, sha);
    }
  }

  lemma NotPutting(j: Job, d: Disk)
    requires j.req.dir != [] && !Puts(j, d)
    ensures !(j.pc.Listing? && List(j.req, j.pc.k, d, j.fate).1.Placed?)
  {
  }

  lemma Removed(fs: Fs, dir: Path)
    ensures !Exists(Without(fs, Below(fs, dir)), dir)
  {
  }

  lemma StillGone(fs: Fs, dir: Path, gone: set<Path>)
    requires !Exists(fs, dir)
    ensures !Exists(Without(fs, gone), dir)
  {
  }

  lemma AbsentConsistent(d: Disk, dir: Path, sha: string -> string)
    requires !Exists(d.fs, dir) && d.verdict != Some("staged")
    ensures Consistent(d, dir, sha)
  {
    hide VerifyStaged;
  }

  lemma EndsSafe(n: Node, dir: Path, ok: bool, sha: string -> string)
    requires dir != [] && OfDir(n, dir) && Safe(n, dir, sha) && Uncut(n, dir, Next(ok))
    ensures Safe(Ended(n, dir, ok), dir, sha)
  {
    hide VerifyStaged, Ready, Entries, AllInside, Exists, Without, Below, Stands, Early;
    match n.reset
    case None =>
    case Some(Model) => Removed(n.disk.fs, dir);
    case Some(Leftover) =>
      StillGone(n.disk.fs, dir, Below(n.disk.fs, Scratch(dir)));
      if n.unit.Some? {
        EarlyReady(n.unit.value.req, n.unit.value.pc, Ended(n, dir, ok).disk, sha);
      }
    case Some(Record) =>
      if n.unit.Some? {
        ReadyBlind(n.unit.value.req, n.unit.value.pc, n.disk, Ended(n, dir, ok).disk, sha);
      }
  }

  lemma EventSafe(n: Node, dir: Path, e: Event, sha: string -> string)
    requires dir != [] && OfDir(n, dir) && Safe(n, dir, sha) && Uncut(n, dir, e)
    ensures Safe(Do(n, dir, e, sha), dir, sha)
  {
    match e
    case Tick => TickSafe(n, dir, sha);
    case Next(ok) => EndsSafe(n, dir, ok, sha);
    case AgentDies => DiesSafe(n, dir, sha);
    case _ => OtherSafe(n, dir, e, sha);
  }

  lemma DiesSafe(n: Node, dir: Path, sha: string -> string)
    requires dir != [] && OfDir(n, dir) && Safe(n, dir, sha) && Uncut(n, dir, AgentDies)
    ensures Safe(n.(reset := None), dir, sha)
  {
    hide VerifyStaged, Ready, Entries, AllInside, Exists, Stands, Early;
    if n.reset == Some(Leftover) && n.unit.Some? {
      EarlyReady(n.unit.value.req, n.unit.value.pc, n.disk, sha);
    }
  }

  lemma OtherSafe(n: Node, dir: Path, e: Event, sha: string -> string)
    requires dir != [] && OfDir(n, dir) && Safe(n, dir, sha) && Uncut(n, dir, e)
    requires e.Poll? || e.UnitDies? || e.Reset? || e.Erase?
    ensures Safe(Do(n, dir, e, sha), dir, sha)
  {
    hide Consistent, Whole, Ready, Entries, AllInside, Exists, Without, Below, Early, VerifyStaged;
    match e
    case Poll(body, pin, fate, starts) =>
      SameEntries(dir, body, pin);
      OpeningReady(Request(dir, body, pin), n.disk, sha);
    case Erase(gone) =>
      if n.reset == Some(Leftover) {
        StillGone(n.disk.fs, dir, gone * Below(n.disk.fs, Target(dir, Leftover)));
      }
    case _ =>
  }

  lemma OpeningReady(req: Request, d: Disk, sha: string -> string)
    requires req.dir != []
    ensures Ready(req, Opening, d, sha) && Stands(req, Opening)
  {
  }

  /** Whatever the agent and the unit do, fail at or die in, in whatever order, as long
      as no reset is cut short: outside a reset the model's directory is at every moment
      absent or verified in full, and "staged" is recorded only of one that is. */
  lemma {:induction false} AlwaysSafe(n: Node, dir: Path, es: seq<Event>, sha: string -> string)
    requires dir != [] && OfDir(n, dir) && Safe(n, dir, sha) && AllUncut(n, dir, es, sha)
    ensures Safe(After(n, dir, es, sha), dir, sha)
    decreases |es|
  {
    hide Safe, Do, Uncut;
    if es != [] {
      AlwaysSafe(n, dir, es[..|es| - 1], sha);
      EventSafe(After(n, dir, es[..|es| - 1], sha), dir, es[|es| - 1], sha);
    }
  }

  /** A corrupt verdict stands until a reset: no poll starts a download over it, and no
      crash or restart of the agent forgets it. */
  lemma {:induction false} CorruptStands(n: Node, dir: Path, es: seq<Event>, sha: string -> string)
    requires dir != [] && OfDir(n, dir) && Safe(n, dir, sha) && n.reset.None?
    requires n.disk.verdict == Some("corrupt") && forall i | 0 <= i < |es| :: !es[i].Reset?
    ensures var m := After(n, dir, es, sha);
      m.disk == n.disk && m.reset.None? && Status(m) == "corrupt" && !WillStart(m)
      && (m.unit.Some? ==> m.unit.value.pc.Over?)
    decreases |es|
  {
    hide Consistent, Ready, AllInside, Entries, Step;
    if es != [] {
      CorruptStands(n, dir, es[..|es| - 1], sha);
    }
  }

  // ---------------------------------------------------------------------
  // A reset that is cut short.

  /** The files the manifest vouches for, and the manifest. */
  ghost predicate Vouched(fs: Fs, dir: Path, p: Path) {
    && ManifestPath(dir) in fs && ParseManifest(fs[ManifestPath(dir)]).Some?
    && (p == ManifestPath(dir)
        || exists i | 0 <= i < |ParseManifest(fs[ManifestPath(dir)]).value| ::
             p == PathOf(dir, ParseManifest(fs[ManifestPath(dir)]).value[i].path))
  }

  /** Removing files keeps a verified directory verified exactly when none of them is
      vouched for. */
  lemma ErasedStaged(fs: Fs, dir: Path, gone: set<Path>, sha: string -> string)
    requires VerifyStaged(fs, dir, "", sha).Staged?
    ensures VerifyStaged(Without(fs, gone), dir, "", sha).Staged? <==> forall p | p in gone :: !Vouched(fs, dir, p)
  {
    hide VerifyStaged, ParseManifest, PathOf;
    var t := Without(fs, gone);
    StagedExact(fs, dir, "", sha);
    StagedExact(t, dir, "", sha);
    var es := ParseManifest(fs[ManifestPath(dir)]).value;
    if forall p | p in gone :: !Vouched(fs, dir, p) {
      assert Vouched(fs, dir, ManifestPath(dir));
      forall i | 0 <= i < |es| ensures Holds(t, dir, es[i], sha) {
        assert Holds(fs, dir, es[i], sha) && Vouched(fs, dir, PathOf(dir, es[i].path));
      }
    } else {
      var p :| p in gone && Vouched(fs, dir, p);
      if p != ManifestPath(dir) {
        var i :| 0 <= i < |es| && p == PathOf(dir, es[i].path);
        assert !Holds(t, dir, es[i], sha);
      }
    }
  }

  /** What a reset that stops anywhere leaves: some files gone from under the directory
      or its scratch sibling, the verdict forgotten or not. The node is consistent
      exactly when the directory was not there, or nothing the manifest vouches for is
      gone, or the whole directory is and no success is recorded. */
  lemma CutExact(d: Disk, dir: Path, gone: set<Path>, verdict: Option<string>, sha: string -> string)
    requires dir != [] && Consistent(d, dir, sha) && (verdict == d.verdict || verdict == None)
    ensures var t := Without(d.fs, gone);
      Consistent(d.(fs := t, verdict := verdict), dir, sha) <==>
        || !Exists(d.fs, dir)
        || (forall p | p in gone :: !Vouched(d.fs, dir, p))
        || (!Exists(t, dir) && verdict != Some("staged"))
  {
    hide VerifyStaged, Vouched, Without;
    if Exists(d.fs, dir) {
      ErasedStaged(d.fs, dir, gone, sha);
    } else {
      StillGone(d.fs, dir, gone);
      AbsentNotStaged(d.fs, dir, sha);
    }
  }

  lemma AbsentNotStaged(fs: Fs, dir: Path, sha: string -> string)
    requires !Exists(fs, dir)
    ensures !VerifyStaged(fs, dir, "", sha).Staged?
  {
  }

  function RemoteState(n: Node, dir: Path, pin: string, sha: string -> string): string {
    if VerifyStaged(n.disk.fs, dir, pin, sha).Staged? then "staged" else Status(n)
  }

  lemma AfterThree(n: Node, dir: Path, a: Event, b: Event, c: Event, sha: string -> string)
    requires dir != [] && OfDir(n, dir)
    ensures After(n, dir, [a, b, c], sha) == Do(Do(Do(n, dir, a, sha), dir, b, sha), dir, c, sha)
  {
    hide Do;
    assert [a, b, c][..2] == [a, b] && [a, b][..1] == [a] && [a][..0] == [];
    assert After(n, dir, [], sha) == n;
    assert After(n, dir, [a], sha) == Do(n, dir, a, sha);
    assert After(n, dir, [a, b], sha) == Do(Do(n, dir, a, sha), dir, b, sha);
  }

  /** An agent that dies while a reset has removed one listed file leaves the model
      neither absent nor verified, with "staged" still recorded and believed. */
  lemma CutReset(n: Node, dir: Path, e: Manifest.Entry, pin: string, sha: string -> string)
    requires dir != [] && OfDir(n, dir) && n.reset.None? && Consistent(n.disk, dir, sha)
    requires n.disk.verdict == Some("staged") && ParseManifest(n.disk.fs[ManifestPath(dir)]).Some?
    requires e in ParseManifest(n.disk.fs[ManifestPath(dir)]).value && Inside(e.path)
    ensures var m := After(n, dir, [Reset(true), Erase({PathOf(dir, e.path)}), AgentDies], sha);
      && m.reset.None? && Exists(m.disk.fs, dir) && !VerifyStaged(m.disk.fs, dir, pin, sha).Staged?
      && !Consistent(m.disk, dir, sha) && RemoteState(m, dir, pin, sha) == "staged"
  {
    hide VerifyStaged, ParseManifest, PathOf, Inside, Step;
    var fs := n.disk.fs;
    var p := PathOf(dir, e.path);
    AfterThree(n, dir, Reset(true), Erase({p}), AgentDies, sha);
    var gone := {p} * Below(fs, dir);
    var t := Without(fs, gone);
    StagedExact(fs, dir, "", sha);
    var es := ParseManifest(fs[ManifestPath(dir)]).value;
    var i :| 0 <= i < |es| && es[i] == e;
    assert Holds(fs, dir, es[i], sha);
    assert gone == {p};
    InsideApart(dir, e.path);
    assert dir <= ManifestPath(dir) && ManifestPath(dir) in t;
    assert !Holds(t, dir, es[i], sha);
    StagedExact(t, dir, pin, sha);
    StagedExact(t, dir, "", sha);
  }

  /** A reset that runs through mends whatever an earlier one left. */
  lemma ResetHeals(n: Node, dir: Path, scratch: bool, sha: string -> string)
    requires dir != [] && OfDir(n, dir) && n.reset.None?
    ensures var begun := Do(n, dir, Reset(true), sha);
      var m := After(begun, dir, [Next(true), Next(scratch), Next(true)], sha);
      Safe(m, dir, sha) && !Exists(m.disk.fs, dir) && m.disk.verdict.None? && WillStart(m)
  {
    hide VerifyStaged, Exists, Without, Below;
    var begun := Do(n, dir, Reset(true), sha);
    AfterThree(begun, dir, Next(true), Next(scratch), Next(true), sha);
    Removed(n.disk.fs, dir);
    var fs := Without(n.disk.fs, Below(n.disk.fs, dir));
    StillGone(fs, dir, Below(fs, Scratch(dir)));
    AbsentConsistent(After(begun, dir, [Next(true), Next(scratch), Next(true)], sha).disk, dir, sha);
  }

  // ---------------------------------------------------------------------
  // A stop that is ignored.

  /** A unit that has got anywhere is not ready where nothing is. */
  lemma NotReady(req: Request, pc: Pc, d: Disk, sha: string -> string)
    requires req.dir != [] && AllInside(Entries(req)) && Stands(req, pc) && !Early(pc)
    requires !Exists(d.fs, req.dir) && !Exists(d.fs, Scratch(req.dir))
    ensures !Ready(req, pc, d, sha)
  {
    hide VerifyStaged, Inside, PathOf, Entries;
    if pc.Placed? {
      AbsentNotStaged(d.fs, req.dir, sha);
    } else {
      var e := Entries(req)[0];
      EntryPath(Scratch(req.dir), e);
      assert !Matches(d.fs, PathOf(Scratch(req.dir), e.path), e.sum, sha);
    }
  }

  /** When a reset has cleared the scratch directory after the model's own, all is in
      order again exactly if no unit works or the one that does has got nowhere. */
  lemma ClearedExact(n: Node, dir: Path, sha: string -> string)
    requires dir != [] && OfDir(n, dir) && n.reset == Some(Leftover) && Safe(n, dir, sha)
    ensures Safe(Do(n, dir, Next(true), sha), dir, sha) <==> Idle(n)
  {
    hide VerifyStaged, Ready, Entries, AllInside, Exists, Without, Below, Stands, Early;
    var m := Do(n, dir, Next(true), sha);
    if Idle(n) {
      EndsSafe(n, dir, true, sha);
    } else {
      Removed(n.disk.fs, Scratch(dir));
      StillGone(n.disk.fs, dir, Below(n.disk.fs, Scratch(dir)));
      NotReady(n.unit.value.req, n.unit.value.pc, m.disk, sha);
    }
  }

  /** A stop that fails does no harm exactly where the unit had got nowhere: at its
      start, done, or at its first file. */
  lemma StopExact(n: Node, dir: Path, sha: string -> string)
    requires dir != [] && OfDir(n, dir) && n.reset.None? && Safe(n, dir, sha)
    ensures var m := After(Do(n, dir, Reset(false), sha), dir, [Next(true), Next(true), Next(true)], sha);
      m.reset.None? && m.disk.verdict.None? && (Safe(m, dir, sha) <==> Idle(n))
  {
    hide VerifyStaged, Ready, Entries, AllInside, Exists, Without, Below, Stands, Early;
    var begun := Do(n, dir, Reset(false), sha);
    AfterThree(begun, dir, Next(true), Next(true), Next(true), sha);
    OtherSafe(n, dir, Reset(false), sha);
    EndsSafe(begun, dir, true, sha);
    var cleared := Do(begun, dir, Next(true), sha);
    var listed := Do(cleared, dir, Next(true), sha);
    ClearedExact(cleared, dir, sha);
    var m := Do(listed, dir, Next(true), sha);
    if Idle(n) {
      EndsSafe(listed, dir, true, sha);
    } else {
      Removed(cleared.disk.fs, Scratch(dir));
      StillGone(cleared.disk.fs, dir, Below(cleared.disk.fs, Scratch(dir)));
      NotReady(n.unit.value.req, n.unit.value.pc, m.disk, sha);
    }
  }

  function Ticks(n: Node, dir: Path, k: nat, sha: string -> string): (m: Node)
    requires dir != [] && OfDir(n, dir)
    ensures OfDir(m, dir)
  {
    if k == 0 then n else Do(Ticks(n, dir, k - 1, sha), dir, Tick, sha)
  }

  lemma MovedOnly(fs: Fs, from: Path, to: Path, q: Path)
    requires !Exists(fs, to) && to <= q && q in Moved(fs, from, to)
    ensures from + q[|to|..] in fs
  {
  }

  /** A unit between its first and its second entry, whose every later step succeeds. */
  ghost predicate Halfway(n: Node, dir: Path, a: Manifest.Entry, b: Manifest.Entry, content: string, sha: string -> string)
    requires dir != []
  {
    && n.reset.None? && n.unit.Some? && n.unit.value.req.dir == dir && n.unit.value.pc == At(1)
    && Entries(n.unit.value.req) == [a, b] && Inside(a.path) && Inside(b.path) && a.path != b.path
    && !Exists(n.disk.fs, dir) && Matches(n.disk.fs, PathOf(Scratch(dir), a.path), a.sum, sha)
    && n.disk.verdict == Some("staging") && sha(content) == b.sum
    && var f := n.unit.value.fate;
    && (forall k :: f.record(k)) && f.room(1) && f.arrives(1) == [content] && f.fetched(1)
    && f.lists == [n.unit.value.req.body] && f.listed && f.renames
  }

  /** The unit of a Halfway node goes on where a reset left it. */
  lemma HalfwayOn(n: Node, dir: Path, a: Manifest.Entry, b: Manifest.Entry, content: string, fs: Fs, sets: nat, sha: string -> string)
    requires dir != [] && Halfway(n, dir, a, b, content, sha)
    requires forall p | p in fs :: !(dir <= p) && !(Scratch(dir) <= p)
    ensures var p := PathOf(Scratch(dir), b.path);
      var t := fs[p := content][ManifestPath(Scratch(dir)) := n.unit.value.req.body];
      var m := Ticks(n.(disk := Disk(fs, None, sets)), dir, 6, sha);
      m.disk.fs == Moved(t, Scratch(dir), dir) && m.disk.verdict == Some("staged") && !Exists(t, dir) && m.reset.None?
  {
    hide PathOf, Inside, Moved, Entries, ParseManifest, Exists;
    var j, f := n.unit.value, n.unit.value.fate;
    var tmp := Scratch(dir);
    var p, q := PathOf(tmp, b.path), ManifestPath(tmp);
    EntryPath(tmp, b);
    assert tmp <= q;
    var n0 := n.(disk := Disk(fs, None, sets));
    var n1 := Node(Disk(fs[p := content], None, sets), Some(j.(pc := Arriving(1, 1))), None);
    assert Ticks(n0, dir, 1, sha) == n1 by { assert Ticks(n0, dir, 0, sha) == n0; }
    var n2 := Node(Disk(fs[p := content], Some("staging"), sets + 1), Some(j.(pc := At(2))), None);
    assert Ticks(n0, dir, 2, sha) == n2;
    var n3 := Node(Disk(fs[p := content], Some("verifying"), sets + 2), Some(j.(pc := Listing(0))), None);
    assert Ticks(n0, dir, 3, sha) == n3;
    var t := fs[p := content][q := j.req.body];
    var n4 := Node(Disk(t, Some("verifying"), sets + 2), Some(j.(pc := Listing(1))), None);
    assert Ticks(n0, dir, 4, sha) == n4;
    NothingUnder(fs, dir, p, q, content, j.req.body);
    var n5 := Node(Disk(Moved(t, tmp, dir), Some("verifying"), sets + 2), Some(j.(pc := Placed)), None);
    assert Ticks(n0, dir, 5, sha) == n5;
    assert Ticks(n0, dir, 6, sha) == Do(n5, dir, Tick, sha);
  }

  lemma NothingUnder(fs: Fs, dir: Path, p: Path, q: Path, content: string, body: string)
    requires dir != [] && Scratch(dir) <= p && Scratch(dir) <= q && forall r | r in fs :: !(dir <= r)
    ensures !Exists(fs[p := content][q := body], dir)
  {
    Apart(dir, p);
    Apart(dir, q);
  }

  /** A reset goes on when the manager cannot stop the unit. Its deletions may all
      succeed and the unit still put in place what it has fetched since: a directory
      without the first file, recorded and believed to be staged. */
  lemma StopIgnored(n: Node, dir: Path, a: Manifest.Entry, b: Manifest.Entry, content: string, pin: string, sha: string -> string)
    requires dir != [] && Halfway(n, dir, a, b, content, sha)
    ensures var cleared := After(Do(n, dir, Reset(false), sha), dir, [Next(true), Next(true), Next(true)], sha);
      var m := Ticks(cleared, dir, 6, sha);
      && m.reset.None? && Exists(m.disk.fs, dir) && !VerifyStaged(m.disk.fs, dir, pin, sha).Staged?
      && RemoteState(m, dir, pin, sha) == "staged"
  {
    hide VerifyStaged, ParseManifest, PathOf, Inside, Moved, Ticks, Halfway, Step;
    assert n.unit.Some? && n.reset.None? && OfDir(n, dir) && !Exists(n.disk.fs, dir) by { HalfwayHas(n, dir, a, b, content, sha); }
    var begun := Do(n, dir, Reset(false), sha);
    AfterThree(begun, dir, Next(true), Next(true), Next(true), sha);
    var fs1 := Without(n.disk.fs, Below(n.disk.fs, dir));
    var fs := Without(fs1, Below(fs1, Scratch(dir)));
    assert After(begun, dir, [Next(true), Next(true), Next(true)], sha) == n.(disk := Disk(fs, None, n.disk.sets));
    HalfwayOn(n, dir, a, b, content, fs, n.disk.sets, sha);
    PlacedWithout(n, dir, a, b, content, fs, pin, sha);
  }

  lemma HalfwayHas(n: Node, dir: Path, a: Manifest.Entry, b: Manifest.Entry, content: string, sha: string -> string)
    requires dir != [] && Halfway(n, dir, a, b, content, sha)
    ensures n.unit.Some? && n.reset.None? && OfDir(n, dir) && !Exists(n.disk.fs, dir)
    ensures var body := n.unit.value.req.body; ParseManifest(body) == Some([a, b])
    ensures Inside(a.path) && Inside(b.path) && a.path != b.path
  {
    hide ParseManifest, PathOf, Inside;
  }

  lemma PlacedWithout(n: Node, dir: Path, a: Manifest.Entry, b: Manifest.Entry, content: string, fs: Fs, pin: string, sha: string -> string)
    requires dir != [] && Halfway(n, dir, a, b, content, sha)
    requires forall p | p in fs :: !(dir <= p) && !(Scratch(dir) <= p)
    ensures var t := fs[PathOf(Scratch(dir), b.path) := content][ManifestPath(Scratch(dir)) := n.unit.value.req.body];
      var placed := Moved(t, Scratch(dir), dir);
      !Exists(t, dir) ==> Exists(placed, dir) && !VerifyStaged(placed, dir, pin, sha).Staged?
  {
    hide VerifyStaged, ParseManifest, PathOf, Inside, Moved, Halfway;
    HalfwayHas(n, dir, a, b, content, sha);
    var tmp, body := Scratch(dir), n.unit.value.req.body;
    var t := fs[PathOf(tmp, b.path) := content][ManifestPath(tmp) := body];
    if !Exists(t, dir) {
      var placed := Moved(t, tmp, dir);
      MovedAt(t, tmp, dir, [MANIFEST_NAME]);
      assert dir <= ManifestPath(dir);
      EntryPath(dir, a);
      EntryPath(tmp, a);
      PathsApart(tmp, a, b);
      InsideApart(tmp, a.path);
      assert PathOf(tmp, a.path) !in t;
      var q := PathOf(dir, a.path);
      assert q[|dir|..] == Split(a.path);
      if q in placed {
        MovedOnly(t, tmp, dir, q);
      }
      assert !Holds(placed, dir, [a, b][0], sha);
      StagedExact(placed, dir, pin, sha);
    }
  }

  /** A download of two files in which everything goes well. */
  ghost predicate Smooth(f: Fate, body: string, first: string, second: string) {
    && (forall k :: f.record(k)) && f.made && f.sized && f.room(0) && f.room(1)
    && f.arrives(0) == [first] && f.arrives(1) == [second] && f.fetched(0) && f.fetched(1)
    && f.lists == [body] && f.listed && f.renames
  }

  const BARE := Node(Disk(map[], None, 0), None, None)

  /** Three steps after it was started a download of two files has the first. */
  lemma HalfwayReached(dir: Path, body: string, pin: string, f: Fate, a: Manifest.Entry, b: Manifest.Entry,
      first: string, second: string, sha: string -> string)
    requires dir != [] && ParseManifest(body) == Some([a, b]) && (pin == "" || sha(body) == pin)
    requires Inside(a.path) && Inside(b.path) && a.path != b.path && sha(first) == a.sum && sha(second) == b.sum
    requires Smooth(f, body, first, second)
    ensures Halfway(Ticks(Do(BARE, dir, Poll(body, pin, f, true), sha), dir, 3, sha), dir, a, b, second, sha)
  {
    hide ParseManifest, PathOf, Inside, Exists;
    var req := Request(dir, body, pin);
    var p := PathOf(Scratch(dir), a.path);
    var n0 := Do(BARE, dir, Poll(body, pin, f, true), sha);
    assert n0 == Node(Disk(map[], None, 0), Some(Job(req, f, Opening)), None);
    assert Ticks(n0, dir, 0, sha) == n0;
    var n1 := Node(Disk(map[], Some("staging"), 1), Some(Job(req, f, At(0))), None);
    assert Ticks(n0, dir, 1, sha) == n1;
    var n2 := Node(Disk(map[p := first], Some("staging"), 1), Some(Job(req, f, Arriving(0, 1))), None);
    assert Ticks(n0, dir, 2, sha) == n2;
    var n3 := Node(Disk(map[p := first], Some("staging"), 2), Some(Job(req, f, At(1))), None);
    assert Ticks(n0, dir, 3, sha) == n3;
    EntryPath(Scratch(dir), a);
    Apart(dir, p);
    OneFile(dir, p, first);
  }

  lemma OneFile(dir: Path, p: Path, content: string)
    requires !(dir <= p)
    ensures !Exists(map[p := content], dir)
  {
  }

  /** From a node where nothing is, by a poll, the unit's steps and one reset alone: the
      stop fails between the two files of a download in which everything goes well, and
      what is left is a directory without the first of them that is answered as
      staged. */
  lemma IgnoredStop(dir: Path, body: string, pin: string, f: Fate, a: Manifest.Entry, b: Manifest.Entry,
      first: string, second: string, sha: string -> string)
    requires dir != [] && ParseManifest(body) == Some([a, b]) && (pin == "" || sha(body) == pin)
    requires Inside(a.path) && Inside(b.path) && a.path != b.path && sha(first) == a.sum && sha(second) == b.sum
    requires Smooth(f, body, first, second)
    ensures var half := Ticks(Do(BARE, dir, Poll(body, pin, f, true), sha), dir, 3, sha);
      var cleared := After(Do(half, dir, Reset(false), sha), dir, [Next(true), Next(true), Next(true)], sha);
      var m := Ticks(cleared, dir, 6, sha);
      && m.reset.None? && Exists(m.disk.fs, dir) && !VerifyStaged(m.disk.fs, dir, pin, sha).Staged?
      && RemoteState(m, dir, pin, sha) == "staged"
  {
    hide ParseManifest, PathOf, Inside, Ticks, Halfway, Smooth, Exists, VerifyStaged;
    HalfwayReached(dir, body, pin, f, a, b, first, second, sha);
    StopIgnored(Ticks(Do(BARE, dir, Poll(body, pin, f, true), sha), dir, 3, sha), dir, a, b, second, pin, sha);
  }

  // ---------------------------------------------------------------------
  // What a plan believes of a remote model.

  /** In every run whose resets run through, a plan that takes a remote model for staged
      is right: its bytes verify. */
  lemma StagedIsTrue(n: Node, dir: Path, es: seq<Event>, pin: string, sha: string -> string)
    requires dir != [] && OfDir(n, dir) && Safe(n, dir, sha) && AllUncut(n, dir, es, sha)
    ensures var m := After(n, dir, es, sha);
      m.reset.None? && RemoteState(m, dir, pin, sha) == "staged" ==> VerifyStaged(m.disk.fs, dir, "", sha).Staged?
  {
    hide VerifyStaged, AllUncut, After;
    AlwaysSafe(n, dir, es, sha);
    PinDropped(After(n, dir, es, sha).disk.fs, dir, pin, sha);
  }

  lemma PinDropped(fs: Fs, dir: Path, pin: string, sha: string -> string)
    ensures VerifyStaged(fs, dir, pin, sha).Staged? ==> VerifyStaged(fs, dir, "", sha).Staged?
  {
    hide VerifyStaged, ParseManifest;
    StagedExact(fs, dir, pin, sha);
    StagedExact(fs, dir, "", sha);
  }

  /** But not when the bytes change on their own: weights that rot on disk after a
      download keep being taken for staged while verifying them says they are corrupt. */
  lemma RotIsNotSeen(n: Node, dir: Path, pin: string, e: Manifest.Entry, content: string, sha: string -> string)
    requires n.disk.verdict == Some("staged") && Inside(e.path) && sha(content) != e.sum
    requires ManifestPath(dir) in n.disk.fs && ParseManifest(n.disk.fs[ManifestPath(dir)]).Some?
    requires e in ParseManifest(n.disk.fs[ManifestPath(dir)]).value
    ensures var rotten := n.(disk := n.disk.(fs := n.disk.fs[PathOf(dir, e.path) := content]));
      !VerifyStaged(rotten.disk.fs, dir, pin, sha).Staged? && RemoteState(rotten, dir, pin, sha) == "staged"
  {
    hide VerifyStaged, ParseManifest, PathOf;
    var p := PathOf(dir, e.path);
    var fs := n.disk.fs[p := content];
    InsideApart(dir, e.path);
    StagedExact(fs, dir, pin, sha);
    var es := ParseManifest(n.disk.fs[ManifestPath(dir)]).value;
    var i :| 0 <= i < |es| && es[i] == e;
    assert !Holds(fs, dir, es[i], sha);
  }

  lemma InsideApart(dir: Path, path: string)
    requires Inside(path)
    ensures PathOf(dir, path) != ManifestPath(dir)
  {
    JoinInside(dir, Split(path));
    assert (dir + Split(path))[|dir|..] == Split(path) && ManifestPath(dir)[|dir|..] == [MANIFEST_NAME];
  }
}
