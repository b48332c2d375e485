/** What a download leaves behind at every moment, crashes included, and what the
    recorded verdict is worth. */
module DownloadLaws {
  import opened Prelude
  import Names
  import opened Manifest
  import opened Staging
  import opened Download

  // ---------------------------------------------------------------------
  // Names and places.

  /** A listed path that stays in the directory as it is written, and is not the
      manifest's own name. */
  predicate Inside(path: string) {
    (forall k | 0 <= k < |Split(path)| :: FileName(Split(path)[k])) && Split(path) != [MANIFEST_NAME]
  }

  predicate AllInside(es: seq<Entry>) {
    forall i | 0 <= i < |es| :: Inside(es[i].path)
  }

  lemma {:induction false} JoinInside(dir: Path, parts: seq<string>)
    requires forall k | 0 <= k < |parts| :: FileName(parts[k])
    ensures Join(dir, parts) == dir + parts
    decreases |parts|
  {
    if parts == [] {
      assert dir + parts == dir;
    } else {
      JoinInside(dir + [parts[0]], parts[1..]);
      assert (dir + [parts[0]]) + parts[1..] == dir + parts;
    }
  }

  function Unsplit(parts: seq<string>): string
    requires parts != []
    decreases |parts|
  {
    if |parts| == 1 then parts[0] else parts[0] + "/" + Unsplit(parts[1..])
  }

  lemma {:induction false} SplitBack(s: string)
    ensures Unsplit(Split(s)) == s
    decreases |s|
  {
    var n := Slash(s);
    if n < |s| {
      var tl := Split(s[n + 1..]);
      SplitBack(s[n + 1..]);
      hide Unsplit, Split;
      SplitStep(s);
      UnsplitCons(s[..n], tl);
      assert s == s[..n] + "/" + s[n + 1..];
    }
  }

  lemma SplitStep(s: string)
    requires Slash(s) < |s|
    ensures Split(s) == [s[..Slash(s)]] + Split(s[Slash(s) + 1..])
  {
  }

  lemma UnsplitCons(part: string, parts: seq<string>)
    requires parts != []
    ensures Unsplit([part] + parts) == part + "/" + Unsplit(parts)
  {
    assert ([part] + parts)[1..] == parts;
  }

  lemma SplitInjective(a: string, b: string)
    requires Split(a) == Split(b)
    ensures a == b
  {
    SplitBack(a);
    SplitBack(b);
  }

  /** Nothing stands both under a directory and under its scratch sibling. */
  lemma Apart(dir: Path, p: Path)
    requires dir != [] && Scratch(dir) <= p
    ensures !(dir <= p)
  {
    var k := |dir| - 1;
    assert Scratch(dir)[k] == dir[k] + ".downloading" != dir[k];
    assert p[k] == Scratch(dir)[k];
  }

  lemma {:induction false} InsertDistinct(es: seq<Entry>, e: Entry)
    requires Distinct(es) && !Lists(es, e.path)
    ensures Distinct(InsertEntry(es, e))
    decreases |es|
  {
    hide Names.Before;
    var k := |es| - 1;
    if es != [] && Names.Before(e.path, es[k].path) {
      assert forall i | 0 <= i < k :: es[..k][i] == es[i];
      assert !Lists(es[..k], es[k].path) && !Lists(es[..k], e.path);
      InsertDistinct(es[..k], e);
      InsertLists(es[..k], e);
      var head := InsertEntry(es[..k], e);
      assert !Lists(head, es[k].path);
    }
  }

  predicate Distinct(es: seq<Entry>) {
    forall i, j | 0 <= i < j < |es| :: es[i].path != es[j].path
  }

  lemma {:induction false} ParsedDistinct(lines: seq<string>)
    ensures Collect(lines).Some? ==> Distinct(Collect(lines).value)
    decreases |lines|
  {
    hide ReadLine, InsertEntry, Distinct;
    if lines == [] {
      assert Distinct([]) by { NoneDistinct(); }
    } else {
      ParsedDistinct(lines[..|lines| - 1]);
      var before := Collect(lines[..|lines| - 1]);
      var read := ReadLine(lines[|lines| - 1]);
      if before.Some? && read.Listed? && !Lists(before.value, read.e.path) {
        InsertDistinct(before.value, read.e);
      }
    }
  }

  lemma NoneDistinct()
    ensures Distinct([])
  {
  }

  // ---------------------------------------------------------------------
  // The invariant.

  /** The directory is not there, or it verifies against the manifest beside it. */
  ghost predicate Whole(fs: Fs, dir: Path, sha: string -> string) {
    !Exists(fs, dir) || VerifyStaged(fs, dir, "", sha).Staged?
  }

  ghost predicate Consistent(d: Disk, dir: Path, sha: string -> string) {
    Whole(d.fs, dir, sha) && (d.verdict == Some("staged") ==> VerifyStaged(d.fs, dir, "", sha).Staged?)
  }

  ghost predicate SameUnder(a: Fs, b: Fs, dir: Path) {
    forall p | dir <= p :: (p in a <==> p in b) && (p in a ==> a[p] == b[p])
  }

  lemma StagedSame(a: Fs, b: Fs, dir: Path, sha: string -> string)
    requires SameUnder(a, b, dir) && VerifyStaged(a, dir, "", sha).Staged?
    ensures VerifyStaged(b, dir, "", sha).Staged?
  {
    hide ParseManifest, VerifyStaged;
    StagedExact(a, dir, "", sha);
    StagedExact(b, dir, "", sha);
    assert dir <= ManifestPath(dir);
    var es := ParseManifest(a[ManifestPath(dir)]).value;
    forall i | 0 <= i < |es| ensures Holds(b, dir, es[i], sha) {
      assert Holds(a, dir, es[i], sha);
    }
  }

  /** Short of the end, a download touches nothing under the directory and records no
      success. */
  ghost predicate Near(a: Disk, b: Disk, dir: Path) {
    SameUnder(a.fs, b.fs, dir)
    && (b.verdict == a.verdict || b.verdict in {Some("corrupt"), Some("staging"), Some("verifying")})
  }

  lemma NearConsistent(a: Disk, b: Disk, dir: Path, sha: string -> string)
    requires Consistent(a, dir, sha) && Near(a, b, dir)
    ensures Consistent(b, dir, sha)
  {
    hide VerifyStaged;
    if VerifyStaged(a.fs, dir, "", sha).Staged? {
      StagedSame(a.fs, b.fs, dir, sha);
    }
  }

  // ---------------------------------------------------------------------
  // Fetching.

  /** The first k entries are in the scratch directory, right. */
  predicate Fetched(req: Request, es: seq<Entry>, k: nat, fs: Fs, sha: string -> string)
    requires req.dir != [] && k <= |es|
  {
    forall j | 0 <= j < k :: Matches(fs, PathOf(Scratch(req.dir), es[j].path), es[j].sum, sha)
  }

  lemma EntryPath(dir: Path, e: Entry)
    requires Inside(e.path)
    ensures PathOf(dir, e.path) == dir + Split(e.path) && dir <= PathOf(dir, e.path)
  {
    JoinInside(dir, Split(e.path));
  }

  lemma PathsApart(dir: Path, a: Entry, b: Entry)
    requires Inside(a.path) && Inside(b.path) && a.path != b.path
    ensures PathOf(dir, a.path) != PathOf(dir, b.path)
  {
    EntryPath(dir, a);
    EntryPath(dir, b);
    assert (dir + Split(a.path))[|dir|..] == Split(a.path) && (dir + Split(b.path))[|dir|..] == Split(b.path);
    if Split(a.path) == Split(b.path) {
      SplitInjective(a.path, b.path);
    }
  }

  /** Writing another entry's file leaves the ones already there alone. */
  lemma PutFetched(req: Request, es: seq<Entry>, i: nat, d: Disk, content: string, sha: string -> string)
    requires req.dir != [] && i < |es| && AllInside(es) && Distinct(es) && Fetched(req, es, i, d.fs, sha)
    ensures var p := PathOf(Scratch(req.dir), es[i].path);
      Fetched(req, es, i, Put(d, p, content).fs, sha) && Near(d, Put(d, p, content), req.dir)
  {
    hide PathOf, Inside, Near, Distinct;
    var p := PathOf(Scratch(req.dir), es[i].path);
    EntryPath(Scratch(req.dir), es[i]);
    PutNear(d, p, content, req.dir);
    forall j | 0 <= j < i ensures Matches(Put(d, p, content).fs, PathOf(Scratch(req.dir), es[j].path), es[j].sum, sha) {
      DistinctAt(es, j, i);
      PathsApart(Scratch(req.dir), es[j], es[i]);
      assert Matches(d.fs, PathOf(Scratch(req.dir), es[j].path), es[j].sum, sha);
    }
  }

  lemma PutNear(d: Disk, p: Path, content: string, dir: Path)
    requires dir != [] && Scratch(dir) <= p
    ensures Near(d, Put(d, p, content), dir)
  {
    Apart(dir, p);
  }

  lemma DistinctAt(es: seq<Entry>, j: nat, i: nat)
    requires Distinct(es) && j < i < |es|
    ensures es[j].path != es[i].path
  {
  }

  lemma SetFiles(d: Disk, state: string, f: Fate)
    ensures Set(d, state, f).fs == d.fs
  {
  }

  // ---------------------------------------------------------------------
  // Putting in place.

  lemma MovedAt(fs: Fs, from: Path, to: Path, rel: Path)
    requires !Exists(fs, to) && from + rel in fs
    ensures to + rel in Moved(fs, from, to) && Moved(fs, from, to)[to + rel] == fs[from + rel]
  {
    var p := from + rel;
    assert from <= p && p[|from|..] == rel;
    assert (to + rel)[|to|..] == rel;
    assert to + p[|from|..] == to + rel;
    assert to + rel in (set p | p in fs && from <= p :: to + p[|from|..]);
  }

  lemma PlacedHolds(req: Request, e: Entry, fs: Fs, sha: string -> string)
    requires req.dir != [] && Inside(e.path) && !Exists(fs, req.dir)
    requires Matches(fs, PathOf(Scratch(req.dir), e.path), e.sum, sha)
    ensures Holds(Moved(fs, Scratch(req.dir), req.dir), req.dir, e, sha)
  {
    hide Moved, Inside, PathOf;
    EntryPath(Scratch(req.dir), e);
    EntryPath(req.dir, e);
    MovedAt(fs, Scratch(req.dir), req.dir, Split(e.path));
  }

  /** What the rename puts in place verifies. */
  lemma PlacedStaged(req: Request, es: seq<Entry>, fs: Fs, sha: string -> string)
    requires req.dir != [] && !Exists(fs, req.dir) && es != [] && AllInside(es)
    requires ParseManifest(req.body) == Some(es) && Fetched(req, es, |es|, fs, sha)
    requires var m := ManifestPath(Scratch(req.dir)); m in fs && fs[m] == req.body
    ensures VerifyStaged(Moved(fs, Scratch(req.dir), req.dir), req.dir, "", sha).Staged?
  {
    hide ParseManifest, VerifyStaged, Moved, Matches, Inside, PathOf;
    var t := Moved(fs, Scratch(req.dir), req.dir);
    MovedAt(fs, Scratch(req.dir), req.dir, [MANIFEST_NAME]);
    forall i | 0 <= i < |es| ensures Holds(t, req.dir, es[i], sha) {
      PlacedHolds(req, es[i], fs, sha);
    }
    StagedExact(t, req.dir, "", sha);
  }

  lemma StagedWhole(d: Disk, dir: Path, sha: string -> string)
    requires VerifyStaged(d.fs, dir, "", sha).Staged?
    ensures Consistent(d, dir, sha)
  {
    hide VerifyStaged;
  }

  /** Writing the manifest leaves the weights alone. */
  lemma ListingFetched(req: Request, es: seq<Entry>, d: Disk, content: string, sha: string -> string)
    requires req.dir != [] && AllInside(es) && Fetched(req, es, |es|, d.fs, sha)
    ensures Fetched(req, es, |es|, Put(d, ManifestPath(Scratch(req.dir)), content).fs, sha)
  {
    var tmp := Scratch(req.dir);
    forall j | 0 <= j < |es|
      ensures Matches(Put(d, ManifestPath(tmp), content).fs, PathOf(tmp, es[j].path), es[j].sum, sha)
    {
      assert Inside(es[j].path) && Matches(d.fs, PathOf(tmp, es[j].path), es[j].sum, sha);
      EntryPath(tmp, es[j]);
      assert (tmp + Split(es[j].path))[|tmp|..] == Split(es[j].path) && ManifestPath(tmp)[|tmp|..] == [MANIFEST_NAME];
    }
  }
}
