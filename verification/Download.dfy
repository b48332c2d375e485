/** Fetching a model's weights into a sibling directory and putting them in place in
    one step, so that a crash anywhere leaves nothing that looks staged and is not. */
module Download {
  import opened Prelude
  import opened Manifest
  import opened Staging

  datatype Request = Request(dir: Path, body: string, pin: string)

  /** What survives a crash: the files, and the verdict last recorded. sets counts the
      attempts to record one. */
  datatype Disk = Disk(fs: Fs, verdict: Option<string>, sets: nat)

  /** What the outside decides: which records go through, whether sizes and directories
      can be had, the contents a fetch leaves behind one after the other and whether it
      says it succeeded, the same for the manifest, and whether the rename is allowed. */
  datatype Fate = Fate(
    record: nat -> bool, made: bool, sized: bool, room: nat -> bool,
    arrives: nat -> seq<string>, fetched: nat -> bool, lists: seq<string>, listed: bool, renames: bool)

  function Scratch(dir: Path): Path
    requires dir != []
  {
    dir[..|dir| - 1] + [dir[|dir| - 1] + ".downloading"]
  }

  /** Replaces the recorded verdict in one step, or not at all. */
  function Set(d: Disk, state: string, f: Fate): Disk {
    Disk(d.fs, if f.record(d.sets) then Some(state) else d.verdict, d.sets + 1)
  }

  function Put(d: Disk, p: Path, content: string): Disk {
    d.(fs := d.fs[p := content])
  }

  /** A file written in pieces: every content it has on the way. */
  function Writes(d: Disk, p: Path, contents: seq<string>): seq<Disk> {
    seq(|contents|, k requires 0 <= k < |contents| => Put(d, p, contents[k]))
  }

  function Last(d: Disk, trace: seq<Disk>): Disk {
    if trace == [] then d else trace[|trace| - 1]
  }

  predicate Matches(fs: Fs, p: Path, sum: string, sha: string -> string) {
    p in fs && sha(fs[p]) == sum
  }

  /** One entry: skipped when it is already right, fetched whole otherwise. The states
      passed through, and whether the file is there. */
  function Entered(req: Request, e: Entry, i: nat, d: Disk, f: Fate, sha: string -> string): (r: (seq<Disk>, bool))
    requires req.dir != []
    ensures r.0 != []
  {
    var p := PathOf(Scratch(req.dir), e.path);
    if !f.room(i) then ([Set(d, "corrupt", f)], false)
    else if Matches(d.fs, p, e.sum, sha) then ([Set(d, "staging", f)], true)
    else
      var coming := Writes(d, p, f.arrives(i));
      var w := Last(d, coming);
      if !f.fetched(i) || !Matches(w.fs, p, e.sum, sha) then (coming + [Set(w, "corrupt", f)], false)
      else (coming + [Set(w, "staging", f)], true)
  }

  /** The entries, one after the other. */
  function Fetch(req: Request, es: seq<Entry>, i: nat, d: Disk, f: Fate, sha: string -> string): (r: (seq<Disk>, bool))
    requires req.dir != [] && i <= |es|
    ensures !r.1 ==> r.0 != []
    decreases |es| - i
  {
    if i == |es| then ([], true)
    else
      var (one, ok) := Entered(req, es[i], i, d, f, sha);
      if !ok then (one, false)
      else
        var (rest, done) := Fetch(req, es, i + 1, Last(d, one), f, sha);
        (one + rest, done)
  }

  /** What moves stands under to as it stood under from. */
  function Moved(fs: Fs, from: Path, to: Path): Fs {
    (map p | p in fs && !(from <= p) :: fs[p]) +
    (map q | q in (set p | p in fs && from <= p :: to + p[|from|..]) && from + q[|to|..] in fs :: fs[from + q[|to|..]])
  }

  /** Puts the directory in place; a directory already there is not replaced. */
  function Place(req: Request, d: Disk, f: Fate): (seq<Disk>, bool)
    requires req.dir != []
  {
    var tmp := Scratch(req.dir);
    var listing := Writes(d, ManifestPath(tmp), f.lists);
    var w := Last(d, listing);
    if !f.listed || !(ManifestPath(tmp) in w.fs && w.fs[ManifestPath(tmp)] == req.body) then
      (listing + [Set(w, "corrupt", f)], false)
    else if !f.renames || Exists(w.fs, req.dir) then (listing + [Set(w, "corrupt", f)], false)
    else
      var m := w.(fs := Moved(w.fs, tmp, req.dir));
      (listing + [m, Set(m, "staged", f)], true)
  }

  /** Every state the disk passes through while the unit runs. */
  function Run(req: Request, d: Disk, f: Fate, sha: string -> string): seq<Disk>
    requires req.dir != []
  {
    var es := ParseManifest(req.body);
    if (req.pin != "" && sha(req.body) != req.pin) || es.None? || es.value == [] || !f.made || !f.sized then
      [Set(d, "corrupt", f)]
    else
      var begun := Set(d, "staging", f);
      var (fetching, ok) := Fetch(req, es.value, 0, begun, f, sha);
      if !ok then [begun] + fetching
      else
        var checked := Set(Last(begun, fetching), "verifying", f);
        [begun] + fetching + [checked] + Place(req, checked, f).0
  }

  // ---------------------------------------------------------------------
  // Step by step.

  class Unit {
    var fs: Fs
    var verdict: Option<string>
    var sets: nat
    ghost var trace: seq<Disk>

    ghost function View(): Disk
      reads this
    {
      Disk(fs, verdict, sets)
    }

    constructor (fs: Fs, verdict: Option<string>)
      ensures View() == Disk(fs, verdict, 0) && trace == []
    {
      this.fs, this.verdict, sets, trace := fs, verdict, 0, [];
    }

    method Record(state: string, f: Fate)
      modifies this
      ensures View() == Set(old(View()), state, f) && trace == old(trace) + [View()]
    {
      if f.record(sets) {
        verdict := Some(state);
      }
      sets := sets + 1;
      trace := trace + [View()];
    }

    method WriteFile(p: Path, contents: seq<string>)
      modifies this
      ensures View() == Last(old(View()), Writes(old(View()), p, contents))
      ensures trace == old(trace) + Writes(old(View()), p, contents)
    {
      ghost var was := View();
      var i := 0;
      while i < |contents|
        invariant 0 <= i <= |contents|
        invariant View() == Last(was, Writes(was, p, contents[..i]))
        invariant trace == old(trace) + Writes(was, p, contents[..i])
      {
        PutLast(was, p, contents[..i], contents[i]);
        assert Writes(was, p, contents[..i + 1]) == Writes(was, p, contents[..i]) + [Put(was, p, contents[i])];
        fs := fs[p := contents[i]];
        trace := trace + [View()];
        i := i + 1;
      }
      assert contents[..i] == contents;
    }

    method FetchOne(req: Request, e: Entry, i: nat, f: Fate, sha: string -> string) returns (ok: bool)
      requires req.dir != []
      modifies this
      ensures var (states, done) := Entered(req, e, i, old(View()), f, sha);
        ok == done && trace == old(trace) + states && View() == Last(old(View()), states)
    {
      hide PathOf, Matches, Set, Writes;
      var p := PathOf(Scratch(req.dir), e.path);
      if !f.room(i) {
        Record("corrupt", f);
        return false;
      }
      if !Matches(fs, p, e.sum, sha) {
        WriteFile(p, f.arrives(i));
        if !f.fetched(i) || !Matches(fs, p, e.sum, sha) {
          Record("corrupt", f);
          return false;
        }
      }
      Record("staging", f);
      return true;
    }

    method FetchAll(req: Request, es: seq<Entry>, f: Fate, sha: string -> string) returns (ok: bool)
      requires req.dir != []
      modifies this
      ensures var (states, done) := Fetch(req, es, 0, old(View()), f, sha);
        ok == done && trace == old(trace) + states && View() == Last(old(View()), states)
    {
      hide Entered, Last;
      var i := 0;
      ghost var was, past: seq<Disk> := View(), [];
      LastConcat(was, [], []);
      Started(req, es, was, f, sha);
      while i < |es|
        invariant 0 <= i <= |es|
        invariant trace == old(trace) + past && View() == Last(was, past)
        invariant Fetch(req, es, 0, was, f, sha) ==
          (past + Fetch(req, es, i, View(), f, sha).0, Fetch(req, es, i, View(), f, sha).1)
      {
        ghost var here := View();
        ghost var one := Entered(req, es[i], i, here, f, sha).0;
        ok := FetchOne(req, es[i], i, f, sha);
        LastConcat(was, past, one);
        if !ok {
          return;
        }
        i := i + 1;
        assert past + (one + Fetch(req, es, i, View(), f, sha).0) == (past + one) + Fetch(req, es, i, View(), f, sha).0;
        past := past + one;
      }
      assert past + [] == past;
      ok := true;
    }

    method PlaceAll(req: Request, f: Fate)
      requires req.dir != []
      modifies this
      ensures trace == old(trace) + Place(req, old(View()), f).0 && trace != [] && View() == trace[|trace| - 1]
    {
      hide Writes, Set, Moved;
      var tmp := Scratch(req.dir);
      WriteFile(ManifestPath(tmp), f.lists);
      if !f.listed || ManifestPath(tmp) !in fs || fs[ManifestPath(tmp)] != req.body || !f.renames || Exists(fs, req.dir) {
        Record("corrupt", f);
        return;
      }
      fs := Moved(fs, tmp, req.dir);
      trace := trace + [View()];
      Record("staged", f);
    }

    /** Downloads and verifies one model, start to finish. */
    method Go(req: Request, f: Fate, sha: string -> string)
      requires req.dir != []
      modifies this
      ensures trace == old(trace) + Run(req, old(View()), f, sha) && trace != [] && View() == trace[|trace| - 1]
    {
      hide ParseManifest, Set, Fetch, Place, Last;
      var es := ReadManifest(req.body);
      if (req.pin != "" && sha(req.body) != req.pin) || es.None? || es.value == [] || !f.made || !f.sized {
        Record("corrupt", f);
        return;
      }
      Record("staging", f);
      ghost var begun := View();
      var ok := FetchAll(req, es.value, f, sha);
      ghost var fetching := Fetch(req, es.value, 0, begun, f, sha).0;
      if !ok {
        LastEnd(begun, fetching);
        return;
      }
      Record("verifying", f);
      PlaceAll(req, f);
    }
  }

  lemma LastEnd(d: Disk, t: seq<Disk>)
    requires t != []
    ensures Last(d, t) == t[|t| - 1]
  {
  }

  lemma Started(req: Request, es: seq<Entry>, d: Disk, f: Fate, sha: string -> string)
    requires req.dir != []
    ensures Fetch(req, es, 0, d, f, sha) == ([] + Fetch(req, es, 0, d, f, sha).0, Fetch(req, es, 0, d, f, sha).1)
    ensures Last(d, []) == d
  {
    var states := Fetch(req, es, 0, d, f, sha).0;
    assert [] + states == states;
  }

  lemma LastConcat(d: Disk, a: seq<Disk>, b: seq<Disk>)
    ensures Last(d, a + b) == Last(Last(d, a), b)
  {
    if b == [] {
      assert a + b == a;
    }
  }

  lemma PutLast(d: Disk, p: Path, contents: seq<string>, c: string)
    ensures Put(Last(d, Writes(d, p, contents)), p, c) == Put(d, p, c)
  {
  }
}
