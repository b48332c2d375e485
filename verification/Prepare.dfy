/** Building an artifact next to a model: a marker says it is finished, and nothing
    else does. */
module Prepare {
  import opened Prelude

  /** What a directory holds: less than a whole build, or all of one. */
  datatype Tree = Partial | Finished

  /** What survives a crash, for one key. notes counts the attempts to record progress. */
  datatype Disk = Disk(
    out: Option<Tree>, scratch: Option<Tree>, marker: bool, progress: Option<string>, notes: nat)

  /** What the outside decides: which records go through, whether the scratch directory
      is cleared and made, whether the builder succeeds, whether the old artifact goes
      and the new one is renamed, whether a marker file comes to exist, and whether
      writing it succeeded. */
  datatype Fate = Fate(
    record: nat -> bool, clears: bool, made: bool, builds: bool, drops: bool, renames: bool,
    creates: bool, writes: bool)

  function Note(d: Disk, state: string, f: Fate): Disk {
    d.(progress := if f.record(d.notes) then Some(state) else d.progress, notes := d.notes + 1)
  }

  function Fail(d: Disk, f: Fate): seq<Disk> {
    [Note(d, "failed", f)]
  }

  /** Removing a directory: on the way it holds less than it did. */
  function ClearScratch(d: Disk, gone: bool): seq<Disk> {
    if d.scratch.None? then [] else [d.(scratch := Some(Partial)), d.(scratch := if gone then None else Some(Partial))]
  }

  function ClearOut(d: Disk, gone: bool): seq<Disk> {
    if d.out.None? then [] else [d.(out := Some(Partial)), d.(out := if gone then None else Some(Partial))]
  }

  function Last(d: Disk, t: seq<Disk>): Disk {
    if t == [] then d else t[|t| - 1]
  }

  /** The marker, once the artifact is in place. */
  function Mark(d: Disk, f: Fate): seq<Disk> {
    var m := d.(marker := d.marker || f.creates);
    if f.creates && f.writes then [m, Note(m, "prepared", f)] else [m] + Fail(m, f)
  }

  /** The finished build takes the artifact's place. */
  function Replace(d: Disk, f: Fate): seq<Disk>
    requires d.scratch.Some?
  {
    var clearing := ClearOut(d, f.drops);
    var c := Last(d, clearing);
    if d.out.Some? && !f.drops then clearing + Fail(c, f)
    else if !f.renames then clearing + Fail(c, f)
    else
      var r := c.(out := c.scratch, scratch := None);
      clearing + [r] + Mark(r, f)
  }

  /** Every state the disk passes through while the build's unit runs. */
  function Run(d: Disk, f: Fate): seq<Disk> {
    var begun := Note(d, "preparing", f);
    var clearing := ClearScratch(begun, f.clears);
    var c := Last(begun, clearing);
    if !f.made then [begun] + clearing + Fail(c, f)
    else
      var making := c.(scratch := Some(Partial));
      if !f.builds then
        var undone := ClearScratch(making, f.clears);
        [begun] + clearing + [making] + undone + Fail(Last(making, undone), f)
      else
        var built := making.(scratch := Some(Finished));
        [begun] + clearing + [making, built] + Replace(built, f)
  }

  class Builder {
    var out: Option<Tree>
    var scratch: Option<Tree>
    var marker: bool
    var progress: Option<string>
    var notes: nat
    ghost var trace: seq<Disk>

    ghost function View(): Disk
      reads this
    {
      Disk(out, scratch, marker, progress, notes)
    }

    method Record(state: string, f: Fate)
      modifies this
      ensures View() == Note(old(View()), state, f) && trace == old(trace) + [View()]
    {
      if f.record(notes) {
        progress := Some(state);
      }
      notes := notes + 1;
      trace := trace + [View()];
    }

    method RemoveScratch(gone: bool)
      modifies this
      ensures View() == Last(old(View()), ClearScratch(old(View()), gone))
      ensures trace == old(trace) + ClearScratch(old(View()), gone)
    {
      if scratch.Some? {
        scratch := Some(Partial);
        trace := trace + [View()];
        if gone {
          scratch := None;
        }
        trace := trace + [View()];
      }
    }

    method RemoveOut(gone: bool) returns (ok: bool)
      modifies this
      ensures View() == Last(old(View()), ClearOut(old(View()), gone))
      ensures trace == old(trace) + ClearOut(old(View()), gone) && ok == (old(out).None? || gone)
    {
      ok := out.None? || gone;
      if out.Some? {
        out := Some(Partial);
        trace := trace + [View()];
        if gone {
          out := None;
        }
        trace := trace + [View()];
      }
    }

    method WriteMarker(f: Fate)
      modifies this
      ensures trace == old(trace) + Mark(old(View()), f)
    {
      hide Note;
      marker := marker || f.creates;
      trace := trace + [View()];
      if f.creates && f.writes {
        Record("prepared", f);
      } else {
        Record("failed", f);
      }
    }

    method Publish(f: Fate)
      requires scratch.Some?
      modifies this
      ensures trace == old(trace) + Replace(old(View()), f)
    {
      hide Note, Mark, ClearOut;
      var dropped := RemoveOut(f.drops);
      if !dropped || !f.renames {
        Record("failed", f);
        return;
      }
      OutCleared(old(View()), f.drops);
      out, scratch := scratch, None;
      trace := trace + [View()];
      WriteMarker(f);
    }

    /** Builds one artifact and puts it in place. */
    method RunPrepare(f: Fate)
      modifies this
      ensures trace == old(trace) + Run(old(View()), f)
    {
      hide Replace, Note, ClearScratch;
      Record("preparing", f);
      RemoveScratch(f.clears);
      if !f.made {
        Record("failed", f);
        return;
      }
      scratch := Some(Partial);
      trace := trace + [View()];
      if !f.builds {
        RemoveScratch(f.clears);
        Record("failed", f);
        return;
      }
      scratch := Some(Finished);
      trace := trace + [View()];
      Publish(f);
    }
  }

  lemma OutCleared(d: Disk, gone: bool)
    ensures Last(d, ClearOut(d, gone)).scratch == d.scratch
  {
  }

  // ---------------------------------------------------------------------
  // One build.

  /** The marker tells the truth. */
  predicate Marked(d: Disk) {
    d.marker ==> d.out == Some(Finished)
  }

  ghost predicate AllMarked(t: seq<Disk>) {
    forall i | 0 <= i < |t| :: Marked(t[i])
  }

  /** A build begun where no marker stands leaves the marker true at every step, and so
      after a crash at any; one begun over a marker does so exactly when it fails before
      it touches the artifact. */
  lemma RunMarked(d: Disk, f: Fate)
    requires Marked(d)
    ensures AllMarked(Run(d, f)) <==> !d.marker || !f.made || !f.builds
  {
    hide Note;
    NoteKeeps(d, "preparing", f);
    var begun := Note(d, "preparing", f);
    var clearing := ClearScratch(begun, f.clears);
    var c := Last(begun, clearing);
    NoteKeeps(c, "failed", f);
    var making := c.(scratch := Some(Partial));
    var undone := ClearScratch(making, f.clears);
    NoteKeeps(Last(making, undone), "failed", f);
    if f.made && f.builds {
      var built := making.(scratch := Some(Finished));
      ReplaceMarked(built, f);
      var head := [begun] + clearing + [making, built];
      assert Run(d, f) == head + Replace(built, f);
      assert AllMarked(head);
      if d.marker {
        assert Replace(built, f)[0] == (head + Replace(built, f))[|head|];
      }
    }
  }

  lemma NoteKeeps(d: Disk, state: string, f: Fate)
    ensures var e := Note(d, state, f); e.out == d.out && e.scratch == d.scratch && e.marker == d.marker
  {
  }

  lemma ReplaceMarked(d: Disk, f: Fate)
    requires Marked(d) && d.scratch == Some(Finished)
    ensures !d.marker ==> AllMarked(Replace(d, f))
    ensures d.marker ==> Replace(d, f) != [] && !Marked(Replace(d, f)[0])
  {
    hide Note;
    var clearing := ClearOut(d, f.drops);
    var c := Last(d, clearing);
    NoteKeeps(c, "failed", f);
    var r := c.(out := c.scratch, scratch := None);
    var m := r.(marker := r.marker || f.creates);
    NoteKeeps(m, "failed", f);
    NoteKeeps(m, "prepared", f);
  }

  // ---------------------------------------------------------------------
  // Polls, builds and crashes.

  /** seen is what the poll under way found where the marker would stand. */
  datatype Node = Node(disk: Disk, unit: Option<seq<Disk>>, seen: Option<bool>)

  /** A poll looks for the marker, and then asks after the unit. */
  datatype Event = Look | Ask(fate: Fate, starts: bool) | Tick | Crash

  predicate WillStart(n: Node) {
    n.seen == Some(false) && n.unit.None? && n.disk.progress != Some("failed")
  }

  function Status(n: Node): string {
    if n.seen == Some(true) then "prepared"
    else if n.unit.Some? then "preparing"
    else if n.disk.progress == Some("failed") then "failed"
    else "preparing"
  }

  function Do(n: Node, e: Event): Node {
    match e
    case Look => n.(seen := Some(n.disk.marker))
    case Ask(fate, starts) =>
      n.(seen := None, unit := if WillStart(n) && starts then Some(Run(n.disk, fate)) else n.unit)
    case Tick =>
      if n.unit.None? then n
      else if n.unit.value == [] then n.(unit := None)
      else n.(disk := n.unit.value[0], unit := Some(n.unit.value[1..]))
    case Crash => n.(unit := None, seen := None)
  }

  function After(n: Node, es: seq<Event>): Node
    decreases |es|
  {
    if es == [] then n else Do(After(n, es[..|es| - 1]), es[|es| - 1])
  }

  /** Nothing comes between a poll's two questions. */
  predicate Together(es: seq<Event>) {
    forall i | 0 <= i < |es| && es[i].Ask? :: i > 0 && es[i - 1].Look?
  }

  ghost predicate Safe(n: Node) {
    Marked(n.disk) && (n.unit.Some? ==> AllMarked(n.unit.value))
  }

  lemma TickSafe(n: Node)
    requires Safe(n)
    ensures Safe(Do(n, Tick))
  {
    if n.unit.Some? && n.unit.value != [] {
      var t := n.unit.value;
      forall i | 0 <= i < |t[1..]| ensures Marked(t[1..][i]) {
        assert t[1..][i] == t[i + 1];
      }
    }
  }

  /** When each poll asks both its questions at one moment, the marker is never wrong:
      whatever is built, fails or crashes, in any order, a marker means the directory
      holds a finished build. */
  lemma {:induction false} AlwaysMarked(n: Node, es: seq<Event>)
    requires Safe(n) && Together(es)
    ensures Safe(After(n, es))
    decreases |es|
  {
    hide Run, Marked, AllMarked;
    if es != [] {
      var k := |es| - 1;
      assert Together(es[..k]);
      AlwaysMarked(n, es[..k]);
      var m := After(n, es[..k]);
      if es[k].Tick? {
        TickSafe(m);
      } else if es[k].Ask? {
        assert es[k - 1].Look? && es[..k][..k - 1] == es[..k - 1] && es[..k][k - 1] == es[k - 1];
        assert m == Do(After(n, es[..k - 1]), Look);
        if WillStart(m) {
          assert !m.disk.marker;
          RunMarked(m.disk, es[k].fate);
        }
      }
    }
  }

  // ---------------------------------------------------------------------
  // A poll whose questions are asked apart.

  function Ticks(k: nat): (es: seq<Event>)
    ensures |es| == k && forall i | 0 <= i < k :: es[i] == Tick
  {
    seq(k, i => Tick)
  }

  lemma {:induction false} AfterBoth(n: Node, a: seq<Event>, b: seq<Event>)
    ensures After(n, a + b) == After(After(n, a), b)
    decreases |b|
  {
    if b == [] {
      assert a + b == a;
    } else {
      AfterBoth(n, a, b[..|b| - 1]);
      assert (a + b)[..|a + b| - 1] == a + b[..|b| - 1];
    }
  }

  lemma AfterOne(n: Node, e: Event)
    ensures After(n, [e]) == Do(n, e)
  {
    assert [e][..0] == [];
    assert After(n, []) == n;
  }

  /** A unit left alone passes through its states one by one. */
  lemma {:induction false} AfterTicks(n: Node, k: nat)
    requires n.unit.Some? && k <= |n.unit.value|
    ensures After(n, Ticks(k)) == n.(disk := Last(n.disk, n.unit.value[..k]), unit := Some(n.unit.value[k..]))
    decreases k
  {
    var t := n.unit.value;
    if k == 0 {
      assert Ticks(0) == [] && t[0..] == t;
    } else {
      AfterTicks(n, k - 1);
      assert Ticks(k)[..k - 1] == Ticks(k - 1);
      assert t[k - 1..][1..] == t[k..] && t[k - 1..][0] == t[k - 1] && t[..k][k - 1] == t[k - 1];
    }
  }

  const NEW_DISK := Disk(None, None, false, None, 0)

  /** The four states of a first build up to the artifact, its marker, and its note. */
  lemma FirstBuild(f: Fate)
    requires f.made && f.builds && f.renames && f.creates && f.writes
    ensures var t := Run(NEW_DISK, f);
      && |t| == 6 && !t[3].marker && t[3].progress != Some("failed")
      && t[5].marker && t[5].out == Some(Finished) && t[5].progress != Some("failed")
  {
    var begun := Note(NEW_DISK, "preparing", f);
    var built := begun.(scratch := Some(Finished));
    var placed := begun.(out := Some(Finished));
    var marked := placed.(marker := true);
    assert Run(NEW_DISK, f) == [begun, begun.(scratch := Some(Partial)), built, placed, marked, Note(marked, "prepared", f)];
  }

  /** Events a poll, a build and a crash can make of a fresh node. */
  function Race(first: Fate, second: Fate, k: nat): seq<Event> {
    [Look] + [Ask(first, true)] + Ticks(4) + [Look] + Ticks(3) + [Ask(second, true)] + Ticks(k) + [Crash]
  }

  /** From a node where nothing was ever built, by polls, builds and a crash alone: a
      build finishes between the two questions of a poll and is built again over its own
      marker; a crash while it is replaced leaves a marker with no finished build behind
      it, and every later poll answers that it is prepared and starts nothing. */
  lemma FinishedBetween(first: Fate, second: Fate) returns (k: nat)
    requires first.made && first.builds && first.renames && first.creates && first.writes
    requires second.made && second.builds
    ensures var n := After(Node(NEW_DISK, None, None), Race(first, second, k));
      && n.disk.marker && n.disk.out != Some(Finished) && n.unit.None?
      && Status(Do(n, Look)) == "prepared" && forall f, starts :: Do(Do(n, Look), Ask(f, starts)) == n
  {
    var n0 := Node(NEW_DISK, None, None);
    var t := Run(NEW_DISK, first);
    FirstBuild(first);
    var n1 := n0.(unit := Some(t));
    var n2 := Node(t[3], Some(t[4..]), None);
    var n3 := n2.(seen := Some(false));
    var n4 := Node(t[5], None, Some(false));
    var again := Run(t[5], second);
    hide Run, Do, Marked, Ticks;
    var i := Unmarks(t[5], second);
    k := i + 1;
    RaceOpens(n0, n1, n2, n3, first);
    RaceEnds(n3, n4, t);
    RaceAgain(n4, second, k, again);
    var a := [Look] + [Ask(first, true)] + Ticks(4) + [Look];
    var b := Ticks(3);
    var c := [Ask(second, true)] + Ticks(k) + [Crash];
    AfterBoth(n0, a, b);
    AfterBoth(n0, a + b, c);
    assert Race(first, second, k) == a + b + c;
    var n := After(n0, Race(first, second, k));
    MarkerBelieved(n);
  }

  /** Building over a marker takes it through a state it is wrong in. */
  lemma Unmarks(d: Disk, f: Fate) returns (i: nat)
    requires Marked(d) && d.marker && f.made && f.builds
    ensures i < |Run(d, f)| && !Marked(Run(d, f)[i])
  {
    hide Run;
    RunMarked(d, f);
    i :| 0 <= i < |Run(d, f)| && !Marked(Run(d, f)[i]);
  }

  lemma RaceOpens(n0: Node, n1: Node, n2: Node, n3: Node, first: Fate)
    requires n0 == Node(NEW_DISK, None, None) && n1 == n0.(unit := Some(Run(NEW_DISK, first)))
    requires |Run(NEW_DISK, first)| == 6 && !Run(NEW_DISK, first)[3].marker
    requires n2 == Node(Run(NEW_DISK, first)[3], Some(Run(NEW_DISK, first)[4..]), None) && n3 == n2.(seen := Some(false))
    ensures After(n0, [Look] + [Ask(first, true)] + Ticks(4) + [Look]) == n3
  {
    hide Run;
    var seen := n0.(seen := Some(false));
    AfterOne(n0, Look);
    AfterOne(seen, Ask(first, true));
    AfterTicks(n1, 4);
    AfterOne(n2, Look);
    AfterBoth(n0, [Look], [Ask(first, true)]);
    AfterBoth(n0, [Look] + [Ask(first, true)], Ticks(4));
    AfterBoth(n0, [Look] + [Ask(first, true)] + Ticks(4), [Look]);
  }

  lemma RaceEnds(n3: Node, n4: Node, t: seq<Disk>)
    requires |t| == 6 && n3 == Node(t[3], Some(t[4..]), Some(false)) && n4 == Node(t[5], None, Some(false))
    ensures After(n3, Ticks(3)) == n4
  {
    AfterTicks(n3, 2);
    assert t[4..][..2][1] == t[5] && t[4..][2..] == [];
    assert Ticks(3)[..2] == Ticks(2);
  }

  lemma RaceAgain(n4: Node, second: Fate, k: nat, again: seq<Disk>)
    requires n4.seen == Some(false) && n4.unit.None? && n4.disk.progress != Some("failed")
    requires again == Run(n4.disk, second) && 0 < k <= |again|
    ensures After(n4, [Ask(second, true)] + Ticks(k) + [Crash]) == Node(again[k - 1], None, None)
  {
    hide Run;
    var n5 := Node(n4.disk, Some(again), None);
    AfterOne(n4, Ask(second, true));
    AfterTicks(n5, k);
    AfterBoth(n4, [Ask(second, true)], Ticks(k));
    AfterBoth(n4, [Ask(second, true)] + Ticks(k), [Crash]);
    AfterOne(After(n5, Ticks(k)), Crash);
  }

  /** A marker is believed whatever stands behind it. */
  lemma MarkerBelieved(n: Node)
    requires n.disk.marker && n.seen.None?
    ensures Status(Do(n, Look)) == "prepared" && forall f, starts :: Do(Do(n, Look), Ask(f, starts)) == n
  {
  }
}
