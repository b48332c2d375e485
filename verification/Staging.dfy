/** What a node finds when it reads every byte a model's manifest names. */
module Staging {
  import opened Prelude
  import opened Names
  import opened Manifest

  /** A clean path, as its components, and the files that exist. */
  type Path = seq<string>
  type Fs = map<Path, string>

  datatype Verdict = Staged(files: nat, bytes: nat) | Absent | Corrupt

  /** SHA-256 of a file's content, in lower-case hex. */
  ghost predicate HexSum(sha: string -> string) {
    forall c :: HexHash(sha(c))
  }

  function Slash(s: string): (n: nat)
    ensures n <= |s| && (n < |s| ==> s[n] == '/') && forall i | 0 <= i < n :: s[i] != '/'
  {
    if s == "" || s[0] == '/' then 0 else 1 + Slash(s[1..])
  }

  function Split(s: string): (parts: seq<string>)
    ensures parts != []
    decreases |s|
  {
    var n := Slash(s);
    if n == |s| then [s] else [s[..n]] + Split(s[n + 1..])
  }

  /** Joins onto a clean path and cleans what comes of it. */
  function Join(dir: Path, parts: seq<string>): Path
    decreases |parts|
  {
    if parts == [] then dir
    else if parts[0] == "" || parts[0] == "." then Join(dir, parts[1..])
    else if parts[0] == ".." then Join(if dir == [] then [] else dir[..|dir| - 1], parts[1..])
    else Join(dir + [parts[0]], parts[1..])
  }

  function PathOf(dir: Path, rel: string): Path {
    Join(dir, Split(rel))
  }

  predicate Exists(fs: Fs, dir: Path) {
    exists p | p in fs :: dir <= p
  }

  /** p is a directory: something stands below it. */
  predicate IsDir(fs: Fs, p: Path) {
    exists q | q in fs :: p < q
  }

  function ManifestPath(dir: Path): Path {
    dir + [MANIFEST_NAME]
  }

  // ---------------------------------------------------------------------
  // Verifying.

  /** One entry against the disk: None when it is as listed. */
  function EntryFault(fs: Fs, dir: Path, e: Entry, sha: string -> string): Option<Verdict> {
    var p := PathOf(dir, e.path);
    if !(dir <= p) then Some(Corrupt)
    else if p !in fs then Some(if IsDir(fs, p) then Corrupt else Absent)
    else if sha(fs[p]) != e.sum then Some(Corrupt)
    else None
  }

  function FirstFault(fs: Fs, dir: Path, es: seq<Entry>, sha: string -> string): Option<Verdict> {
    if es == [] then None
    else
      var fault := EntryFault(fs, dir, es[0], sha);
      if fault.Some? then fault else FirstFault(fs, dir, es[1..], sha)
  }

  function Size(fs: Fs, dir: Path, es: seq<Entry>): nat
    decreases |es|
  {
    if es == [] then 0
    else
      var p := PathOf(dir, es[|es| - 1].path);
      Size(fs, dir, es[..|es| - 1]) + if p in fs then |fs[p]| else 0
  }

  function VerifyStaged(fs: Fs, dir: Path, pin: string, sha: string -> string): Verdict {
    if !Exists(fs, dir) || ManifestPath(dir) !in fs then Absent
    else
      var body := fs[ManifestPath(dir)];
      var es := ParseManifest(body);
      if pin != "" && sha(body) != pin then Corrupt
      else if es.None? || es.value == [] then Corrupt
      else
        var fault := FirstFault(fs, dir, es.value, sha);
        if fault.Some? then fault.value else Staged(|es.value|, Size(fs, dir, es.value))
  }

  method CheckStaged(fs: Fs, dir: Path, pin: string, sha: string -> string) returns (v: Verdict)
    ensures v == VerifyStaged(fs, dir, pin, sha)
  {
    hide ParseManifest, PathOf, IsDir, Exists;
    if !Exists(fs, dir) || ManifestPath(dir) !in fs {
      return Absent;
    }
    var body := fs[ManifestPath(dir)];
    if pin != "" && sha(body) != pin {
      return Corrupt;
    }
    var es := ReadManifest(body);
    if es.None? || es.value == [] {
      return Corrupt;
    }
    var bytes, i := 0, 0;
    while i < |es.value|
      invariant 0 <= i <= |es.value| && bytes == Size(fs, dir, es.value[..i])
      invariant FirstFault(fs, dir, es.value, sha) == FirstFault(fs, dir, es.value[i..], sha)
    {
      var p := PathOf(dir, es.value[i].path);
      assert es.value[..i + 1][..i] == es.value[..i];
      if !(dir <= p) {
        return Corrupt;
      }
      if p !in fs {
        return if IsDir(fs, p) then Corrupt else Absent;
      }
      if sha(fs[p]) != es.value[i].sum {
        return Corrupt;
      }
      bytes := bytes + |fs[p]|;
      i := i + 1;
    }
    assert es.value[..i] == es.value;
    return Staged(|es.value|, bytes);
  }

  /** The entry's file stands inside the directory with the digest listed. */
  predicate Holds(fs: Fs, dir: Path, e: Entry, sha: string -> string) {
    var p := PathOf(dir, e.path);
    dir <= p && p in fs && sha(fs[p]) == e.sum
  }

  lemma {:induction false} NoFault(fs: Fs, dir: Path, es: seq<Entry>, sha: string -> string)
    ensures FirstFault(fs, dir, es, sha).None? <==> forall i | 0 <= i < |es| :: Holds(fs, dir, es[i], sha)
    decreases |es|
  {
    hide PathOf, IsDir;
    if es != [] {
      NoFault(fs, dir, es[1..], sha);
      assert es == [es[0]] + es[1..];
      if forall i | 0 <= i < |es| :: Holds(fs, dir, es[i], sha) {
        assert Holds(fs, dir, es[0], sha);
        forall i | 0 <= i < |es[1..]| ensures Holds(fs, dir, es[1..][i], sha) {
          assert es[1..][i] == es[i + 1];
        }
      }
      if FirstFault(fs, dir, es, sha).None? {
        forall i | 0 <= i < |es| ensures Holds(fs, dir, es[i], sha) {
          assert i > 0 ==> es[i] == es[1..][i - 1];
        }
      }
    }
  }

  lemma {:induction false} FaultIsBad(fs: Fs, dir: Path, es: seq<Entry>, sha: string -> string)
    ensures FirstFault(fs, dir, es, sha).Some? ==> !FirstFault(fs, dir, es, sha).value.Staged?
    decreases |es|
  {
    hide PathOf, IsDir;
    if es != [] {
      FaultIsBad(fs, dir, es[1..], sha);
    }
  }

  /** Staged means verified: a manifest that matches its pin, lists at least one file,
      and every file it lists inside the directory with the digest it lists. */
  lemma StagedExact(fs: Fs, dir: Path, pin: string, sha: string -> string)
    ensures VerifyStaged(fs, dir, pin, sha).Staged? <==>
      && ManifestPath(dir) in fs
      && (pin != "" ==> sha(fs[ManifestPath(dir)]) == pin)
      && var es := ParseManifest(fs[ManifestPath(dir)]);
      && es.Some? && es.value != []
      && forall i | 0 <= i < |es.value| :: Holds(fs, dir, es.value[i], sha)
  {
    hide ParseManifest, FirstFault, Holds;
    if ManifestPath(dir) in fs {
      assert dir <= ManifestPath(dir);
      var es := ParseManifest(fs[ManifestPath(dir)]);
      if es.Some? {
        NoFault(fs, dir, es.value, sha);
        FaultIsBad(fs, dir, es.value, sha);
      }
    }
  }

  lemma StagedCount(fs: Fs, dir: Path, pin: string, sha: string -> string)
    requires VerifyStaged(fs, dir, pin, sha).Staged?
    ensures ManifestPath(dir) in fs && ParseManifest(fs[ManifestPath(dir)]).Some?
    ensures VerifyStaged(fs, dir, pin, sha).files == |ParseManifest(fs[ManifestPath(dir)]).value|
  {
    hide ParseManifest, FirstFault;
    FaultIsBad(fs, dir, ParseManifest(fs[ManifestPath(dir)]).value, sha);
  }

  /** Nothing stands under dir, or no list does. */
  predicate Unplaced(fs: Fs, dir: Path) {
    (forall p | p in fs :: !(dir <= p)) || dir + ["nodary-manifest.sha256"] !in fs
  }

  lemma {:induction false} FirstFaultAt(fs: Fs, dir: Path, es: seq<Entry>, k: nat, sha: string -> string)
    requires k < |es| && (forall i | 0 <= i < k :: Holds(fs, dir, es[i], sha)) && !Holds(fs, dir, es[k], sha)
    ensures var p := PathOf(dir, es[k].path);
      FirstFault(fs, dir, es, sha) ==
        Some(if dir <= p && p !in fs && (forall q | q in fs :: !(p < q)) then Absent else Corrupt)
    decreases k
  {
    hide PathOf;
    if k > 0 {
      assert Holds(fs, dir, es[0], sha);
      forall i | 0 <= i < k - 1 ensures Holds(fs, dir, es[1..][i], sha) {
        assert es[1..][i] == es[i + 1];
      }
      FirstFaultAt(fs, dir, es[1..], k - 1, sha);
    }
  }

  /** What is not staged is absent or corrupt. Absent: nothing is placed, or, the list
      being good, the first of its files that is not as listed is just not there. Corrupt:
      the list does not match its pin, is none or lists nothing, or the first file that is
      not as listed is outside the directory, a directory, or has another digest. */
  lemma VerdictExact(fs: Fs, dir: Path, pin: string, k: nat, sha: string -> string)
    ensures Unplaced(fs, dir) <==> !Exists(fs, dir) || ManifestPath(dir) !in fs
    ensures Unplaced(fs, dir) ==> VerifyStaged(fs, dir, pin, sha) == Absent
    ensures !Unplaced(fs, dir) ==>
      var body := fs[ManifestPath(dir)];
      var es := ParseManifest(body);
      var good := (pin == "" || sha(body) == pin) && es.Some? && es.value != [];
      && (!good ==> VerifyStaged(fs, dir, pin, sha) == Corrupt)
      && (good && k < |es.value| && (forall i | 0 <= i < k :: Holds(fs, dir, es.value[i], sha))
          && !Holds(fs, dir, es.value[k], sha) ==>
            var p := PathOf(dir, es.value[k].path);
            VerifyStaged(fs, dir, pin, sha) ==
              if dir <= p && p !in fs && (forall q | q in fs :: !(p < q)) then Absent else Corrupt)
  {
    hide ParseManifest, FirstFault, Holds, PathOf;
    if !Unplaced(fs, dir) {
      var es := ParseManifest(fs[ManifestPath(dir)]);
      if es.Some? && k < |es.value| && (forall i | 0 <= i < k :: Holds(fs, dir, es.value[i], sha))
         && !Holds(fs, dir, es.value[k], sha) {
        FirstFaultAt(fs, dir, es.value, k, sha);
      }
    }
  }

  // ---------------------------------------------------------------------
  // Writing the list.

  /** The files directly in dir, the manifest apart: each once, in order. */
  ghost predicate Listing(fs: Fs, dir: Path, names: seq<string>) {
    && (forall i, j | 0 <= i < j < |names| :: Before(names[i], names[j]))
    && (forall i | 0 <= i < |names| :: names[i] != MANIFEST_NAME && FileName(names[i]) && dir + [names[i]] in fs)
    && (forall n | n != MANIFEST_NAME && FileName(n) && dir + [n] in fs :: n in names)
  }

  /** A single path component. */
  predicate FileName(n: string) {
    n != "" && n != "." && n != ".." && forall i | 0 <= i < |n| :: n[i] != '/'
  }

  function Digests(fs: Fs, dir: Path, names: seq<string>, sha: string -> string): (es: seq<Entry>)
    requires forall i | 0 <= i < |names| :: dir + [names[i]] in fs
    ensures |es| == |names|
    ensures forall i | 0 <= i < |es| :: es[i] == Entry(sha(fs[dir + [names[i]]]), names[i])
  {
    seq(|names|, i requires 0 <= i < |names| => Entry(sha(fs[dir + [names[i]]]), names[i]))
  }

  lemma {:induction false} BodySnoc(es: seq<Entry>, e: Entry)
    ensures Body(es + [e]) == Body(es) + (e.sum + "  " + e.path + "\n")
    decreases |es|
  {
    if es == [] {
      assert Body([e]) == e.sum + "  " + e.path + "\n" + Body([e][1..]);
    } else {
      BodySnoc(es[1..], e);
      assert (es + [e])[1..] == es[1..] + [e];
    }
  }

  /** What reading the directory yields, in whatever order. */
  datatype DirEntry = DirEntry(name: string, isDir: bool)

  /** The names a list is written of: no directory, and not the list itself. */
  function FileNames(es: seq<DirEntry>): (ns: seq<string>)
    ensures forall n :: n in ns <==> n != MANIFEST_NAME && DirEntry(n, false) in es
    decreases |es|
  {
    if es == [] then []
    else
      var k := |es| - 1;
      assert forall e :: e in es <==> e in es[..k] || e == es[k];
      FileNames(es[..k]) + if es[k].isDir || es[k].name == MANIFEST_NAME then [] else [es[k].name]
  }

  /** es lists dir: each name once, and its files are those on disk. */
  ghost predicate Directory(fs: Fs, dir: Path, es: seq<DirEntry>) {
    && (forall i, j | 0 <= i < j < |es| :: es[i].name != es[j].name)
    && (forall e | e in es :: FileName(e.name))
    && (forall n | FileName(n) :: DirEntry(n, false) in es <==> dir + [n] in fs)
  }

  lemma {:induction false} FileNamesOnce(es: seq<DirEntry>)
    requires forall i, j | 0 <= i < j < |es| :: es[i].name != es[j].name
    ensures NoneTwice(FileNames(es))
    decreases |es|
  {
    if es != [] {
      var k := |es| - 1;
      FileNamesOnce(es[..k]);
      assert forall n :: n in FileNames(es[..k]) ==> n != es[k].name;
    }
  }

  /** Sorting what the directory lists gives its listing in order. */
  lemma ListedInOrder(fs: Fs, dir: Path, es: seq<DirEntry>)
    requires Directory(fs, dir, es)
    ensures Listing(fs, dir, Sorted(FileNames(es)))
  {
    hide Before, FileName, Sorted;
    var ns := FileNames(es);
    FileNamesOnce(es);
    SortedAscends(ns);
    forall n ensures n in Sorted(ns) <==> n in ns {
      SortedHas(ns, n);
    }
    forall i | 0 <= i < |Sorted(ns)|
      ensures Sorted(ns)[i] != MANIFEST_NAME && FileName(Sorted(ns)[i]) && dir + [Sorted(ns)[i]] in fs
    {
      assert Sorted(ns)[i] in ns;
    }
  }

  /** What reading and writing come to: which files can be read, and what a write that
      failed left behind. */
  datatype Touch = Touch(opens: string -> bool, cut: Option<string>)

  predicate AllRead(names: seq<string>, f: Touch) {
    forall i | 0 <= i < |names| :: f.opens(names[i])
  }

  function Total(fs: Fs, dir: Path, names: seq<string>): nat
    requires forall i | 0 <= i < |names| :: dir + [names[i]] in fs
  {
    if names == [] then 0
    else Total(fs, dir, names[..|names| - 1]) + |fs[dir + [names[|names| - 1]]]|
  }

  /** Digests the files one by one; stops at one that cannot be read. */
  method DigestAll(fs: Fs, dir: Path, names: seq<string>, f: Touch, sha: string -> string)
      returns (ok: bool, body: string, bytes: nat)
    requires forall i | 0 <= i < |names| :: dir + [names[i]] in fs
    ensures ok <==> AllRead(names, f)
    ensures ok ==> body == Body(Digests(fs, dir, names, sha)) && bytes == Total(fs, dir, names)
  {
    body, bytes := "", 0;
    var i := 0;
    while i < |names|
      invariant 0 <= i <= |names| && AllRead(names[..i], f)
      invariant body == Body(Digests(fs, dir, names[..i], sha)) && bytes == Total(fs, dir, names[..i])
    {
      var n := names[i];
      if !f.opens(n) {
        return false, body, bytes;
      }
      var content := fs[dir + [n]];
      assert names[..i + 1][..i] == names[..i];
      BodySnoc(Digests(fs, dir, names[..i], sha), Entry(sha(content), n));
      assert Digests(fs, dir, names[..i + 1], sha) == Digests(fs, dir, names[..i], sha) + [Entry(sha(content), n)];
      body := body + (sha(content) + "  " + n + "\n");
      bytes := bytes + |content|;
      i := i + 1;
    }
    assert names[..i] == names;
    ok := true;
  }

  /** Digests every file beside the weights and writes the list. */
  method WriteManifest(fs: Fs, dir: Path, listed: Option<seq<DirEntry>>, f: Touch, sha: string -> string)
      returns (out: Option<(string, nat, nat)>, t: Fs)
    requires listed.Some? ==> Directory(fs, dir, listed.value)
    ensures listed.None? ==> out == None && t == fs
    ensures listed.Some? ==>
      var names := Sorted(FileNames(listed.value));
      && Listing(fs, dir, names)
      && if names == [] || !AllRead(names, f) then out == None && t == fs
         else if f.cut.Some? then out == None && t == fs[ManifestPath(dir) := f.cut.value]
         else
           var body := Body(Digests(fs, dir, names, sha));
           (out == Some((sha(body), |names|, Total(fs, dir, names))) && t == fs[ManifestPath(dir) := body])
  {
    if listed.None? {
      return None, fs;
    }
    hide Before, FileName, Sorted, FileNames, Directory;
    var names := Sorted(FileNames(listed.value));
    ListedInOrder(fs, dir, listed.value);
    if names == [] {
      return None, fs;
    }
    var ok, body, bytes := DigestAll(fs, dir, names, f, sha);
    if !ok {
      return None, fs;
    }
    if f.cut.Some? {
      return None, fs[ManifestPath(dir) := f.cut.value];
    }
    return Some((sha(body), |names|, bytes)), fs[ManifestPath(dir) := body];
  }

  /** Running it again writes the same bytes, in whatever order the directory is listed. */
  lemma SameBytes(fs: Fs, dir: Path, es: seq<DirEntry>, again: seq<DirEntry>)
    requires Directory(fs, dir, es) && Directory(fs, dir, again)
    ensures Sorted(FileNames(es)) == Sorted(FileNames(again))
  {
    hide Before, Sorted;
    FileNamesOnce(es);
    FileNamesOnce(again);
    forall n ensures n in FileNames(es) <==> n in FileNames(again) {
      assert DirEntry(n, false) in es ==> FileName(n);
      assert DirEntry(n, false) in again ==> FileName(n);
    }
    SortedExact(FileNames(es), FileNames(again));
  }

  lemma OnePart(n: string)
    requires FileName(n)
    ensures Split(n) == [n]
  {
    assert Slash(n) == |n|;
  }

  lemma NamedPath(dir: Path, n: string)
    requires FileName(n)
    ensures PathOf(dir, n) == dir + [n]
  {
    OnePart(n);
    assert [n][1..] == [];
    assert Join(dir + [n], []) == dir + [n];
  }

  /** The list a node writes is one it then finds true: with file names a line can
      carry, verifying right after writing answers staged, for every file, against the
      digest that was returned. */
  lemma WrittenIsStaged(fs: Fs, dir: Path, es: seq<DirEntry>, sha: string -> string)
    requires HexSum(sha) && Directory(fs, dir, es) && FileNames(es) != []
    requires forall n | n in FileNames(es) :: Plain(n)
    ensures var names := Sorted(FileNames(es));
      && Listing(fs, dir, names)
      && var body := Body(Digests(fs, dir, names, sha));
      var v := VerifyStaged(fs[ManifestPath(dir) := body], dir, sha(body), sha);
      v.Staged? && v.files == |names|
  {
    hide Plain, HexHash, Before, FileName, Sorted, FileNames, Directory, VerifyStaged;
    var names := Sorted(FileNames(es));
    ListedInOrder(fs, dir, es);
    forall i | 0 <= i < |names| ensures Plain(names[i]) {
      SortedHas(FileNames(es), names[i]);
    }
    SortedHas(FileNames(es), FileNames(es)[0]);
    ListingStaged(fs, dir, names, sha);
  }

  lemma ListingStaged(fs: Fs, dir: Path, names: seq<string>, sha: string -> string)
    requires HexSum(sha) && Listing(fs, dir, names) && names != []
    requires forall i | 0 <= i < |names| :: Plain(names[i])
    ensures var body := Body(Digests(fs, dir, names, sha));
      var v := VerifyStaged(fs[ManifestPath(dir) := body], dir, sha(body), sha);
      v.Staged? && v.files == |names|
  {
    hide Plain, HexHash, Before, FileName, ParseManifest, FirstFault;
    var es := Digests(fs, dir, names, sha);
    var body := Body(es);
    var t := fs[ManifestPath(dir) := body];
    forall i | 0 <= i < |es| ensures Writable(es[i]) {
      assert HexHash(sha(fs[dir + [names[i]]]));
    }
    ManifestBack(es);
    forall i | 0 <= i < |es| ensures Holds(t, dir, es[i], sha) {
      NamedPath(dir, names[i]);
      NotManifest(dir, names[i]);
    }
    StagedExact(t, dir, sha(body), sha);
    StagedCount(t, dir, sha(body), sha);
  }

  lemma NotManifest(dir: Path, n: string)
    requires n != MANIFEST_NAME
    ensures dir + [n] != ManifestPath(dir) && dir <= dir + [n]
  {
    assert (dir + [n])[|dir|] == n && ManifestPath(dir)[|dir|] == MANIFEST_NAME;
  }
}
