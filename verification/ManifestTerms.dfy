/** What a digest list says: which lines it may hold, what each lists, and what makes the
    whole of it one. */
module ManifestTerms {
  import opened Prelude
  import opened Names
  import opened Manifest

  // ---------------------------------------------------------------------
  // One line.

  predicate AllSpace(s: string) {
    forall i | 0 <= i < |s| :: IsSpace(s[i])
  }

  /** No space at either end. */
  predicate Tight(s: string) {
    s != "" ==> !IsSpace(s[0]) && !IsSpace(s[|s| - 1])
  }

  lemma {:induction false} TrimLeftForm(s: string) returns (pad: string)
    ensures AllSpace(pad) && s == pad + TrimLeft(s) && (TrimLeft(s) != "" ==> !IsSpace(TrimLeft(s)[0]))
    decreases |s|
  {
    hide IsSpace;
    if s != "" && IsSpace(s[0]) {
      var more := TrimLeftForm(s[1..]);
      pad := [s[0]] + more;
      assert s == [s[0]] + s[1..];
    } else {
      pad := "";
    }
  }

  lemma {:induction false} TrimRightForm(s: string) returns (pad: string)
    ensures AllSpace(pad) && s == TrimRight(s) + pad
    ensures TrimRight(s) != "" ==> !IsSpace(TrimRight(s)[|TrimRight(s)| - 1])
    decreases |s|
  {
    hide IsSpace;
    if s != "" && IsSpace(s[|s| - 1]) {
      var more := TrimRightForm(s[..|s| - 1]);
      pad := more + [s[|s| - 1]];
      assert s == s[..|s| - 1] + [s[|s| - 1]];
    } else {
      pad := "";
    }
  }

  /** Trimming takes away exactly the space at both ends. */
  lemma TrimForm(s: string) returns (a: string, b: string)
    ensures AllSpace(a) && AllSpace(b) && s == a + TrimSpace(s) + b && Tight(TrimSpace(s))
  {
    hide IsSpace;
    b := TrimRightForm(s);
    a := TrimLeftForm(TrimRight(s));
    var t := TrimSpace(s);
    if t != "" {
      assert TrimRight(s)[|TrimRight(s)| - 1] == t[|t| - 1];
    }
  }

  predicate HexDigit(c: char) {
    var n := c as int;
    0x30 <= n <= 0x39 || 0x41 <= n <= 0x46 || 0x61 <= n <= 0x66
  }

  /** What stands behind the digest: a name, with spaces around it and perhaps a star. */
  function NameIn(rest: string): string {
    var name := TrimSpace(rest);
    if name != "" && name[0] == '*' then name[1..] else name
  }

  /** A line is passed over when it is blank or a comment; it lists a file when its text is
      64 hexadecimal digits, a space and a name; and otherwise the list is none. */
  lemma LineExact(line: string)
    ensures var text := TrimSpace(line);
      var digest := |text| > 64 && text[64] == ' ' && (forall i | 0 <= i < 64 :: HexDigit(text[i]));
      ReadLine(line) ==
        if text == "" || text[0] == '#' then Blank
        else if digest && NameIn(text[65..]) != "" then Listed(Entry(LowerAll(text[..64]), NameIn(text[65..])))
        else Bad
  {
    hide TrimSpace;
    var text := TrimSpace(line);
    var n := FirstSpace(text);
    if |text| > 64 && text[64] == ' ' && forall i | 0 <= i < 64 :: HexDigit(text[i]) {
      assert forall i | 0 <= i < 64 :: text[i] != ' ';
      assert n == 64;
    }
  }

  /** Digests are compared in lower case. */
  lemma LowerExact(s: string, i: nat)
    requires i < |s|
    ensures |LowerAll(s)| == |s|
    ensures LowerAll(s)[i] == if 0x41 <= s[i] as int <= 0x5A then (s[i] as int + 32) as char else s[i]
  {
  }

  // ---------------------------------------------------------------------
  // The whole list.

  predicate Ordered(es: seq<Entry>) {
    forall i, j | 0 <= i < j < |es| :: Before(es[i].path, es[j].path)
  }

  lemma {:induction false} InsertHasEntry(es: seq<Entry>, e: Entry, x: Entry)
    ensures x in InsertEntry(es, e) <==> x in es || x == e
    decreases |es|
  {
    hide Before;
    if es != [] && Before(e.path, es[|es| - 1].path) {
      InsertHasEntry(es[..|es| - 1], e, x);
      assert es == es[..|es| - 1] + [es[|es| - 1]];
    }
  }

  lemma {:induction false} InsertOrdered(es: seq<Entry>, e: Entry)
    requires Ordered(es) && !Lists(es, e.path)
    ensures Ordered(InsertEntry(es, e))
    decreases |es|
  {
    hide Before;
    if es != [] {
      var init, last := es[..|es| - 1], es[|es| - 1];
      assert last.path != e.path;
      BeforeFacts(e.path, last.path);
      if Before(e.path, last.path) {
        assert !Lists(init, e.path) by {
          assert forall i | 0 <= i < |init| :: init[i] == es[i];
        }
        InsertOrdered(init, e);
        forall x | x in InsertEntry(init, e) ensures Before(x.path, last.path) {
          InsertHasEntry(init, e, x);
        }
      } else {
        forall i | 0 <= i < |es| ensures Before(es[i].path, e.path) {
          if i < |es| - 1 {
            BeforeTransitive(es[i].path, last.path, e.path);
          }
        }
      }
    }
  }

  predicate Alone(lines: seq<string>) {
    forall i, j | 0 <= i < j < |lines| && ReadLine(lines[i]).Listed? && ReadLine(lines[j]).Listed? ::
      ReadLine(lines[i]).e.path != ReadLine(lines[j]).e.path
  }

  predicate NoneBad(lines: seq<string>) {
    forall i | 0 <= i < |lines| :: !ReadLine(lines[i]).Bad?
  }

  /** Some line lists this. */
  predicate Says(lines: seq<string>, e: Entry) {
    exists i | 0 <= i < |lines| :: ReadLine(lines[i]) == Listed(e)
  }

  ghost predicate Reads(lines: seq<string>, es: seq<Entry>) {
    Ordered(es) && forall e :: e in es <==> Says(lines, e)
  }

  /** Lines make a list exactly when none is bad and none names a file another one names;
      and then it holds what they list, in the order of the names. */
  lemma {:induction false} ListExact(lines: seq<string>)
    ensures Collect(lines).Some? <==> NoneBad(lines) && Alone(lines)
    ensures Collect(lines).Some? ==> Reads(lines, Collect(lines).value)
    decreases |lines|
  {
    hide ReadLine, Before, Lists;
    if lines == [] {
    } else {
      var k := |lines| - 1;
      var init, read := lines[..k], ReadLine(lines[k]);
      ListExact(init);
      SplitLines(lines);
      if read.Listed? && Collect(init).Some? {
        var es := Collect(init).value;
        NamedBefore(init, es, read.e);
        if !Lists(es, read.e.path) {
          InsertOrdered(es, read.e);
          forall e ensures e in InsertEntry(es, read.e) <==> Says(lines, e) {
            InsertHasEntry(es, read.e, e);
          }
        }
      }
    }
  }

  /** No line names this file. */
  predicate Unnamed(lines: seq<string>, path: string) {
    forall i | 0 <= i < |lines| && ReadLine(lines[i]).Listed? :: ReadLine(lines[i]).e.path != path
  }

  lemma SplitLines(lines: seq<string>)
    requires lines != []
    ensures var init, read := lines[..|lines| - 1], ReadLine(lines[|lines| - 1]);
      && (NoneBad(lines) <==> NoneBad(init) && !read.Bad?)
      && (Alone(lines) <==> (Alone(init) && (read.Listed? ==> Unnamed(init, read.e.path))))
      && (forall e :: Says(lines, e) <==> Says(init, e) || read == Listed(e))
  {
    hide ReadLine;
    var k := |lines| - 1;
    assert forall i | 0 <= i < k :: lines[..k][i] == lines[i];
    forall e ensures Says(lines, e) <==> Says(lines[..k], e) || ReadLine(lines[k]) == Listed(e) {
      if Says(lines, e) {
        var i :| 0 <= i < |lines| && ReadLine(lines[i]) == Listed(e);
      }
    }
  }

  lemma NamedBefore(lines: seq<string>, es: seq<Entry>, e: Entry)
    requires forall x :: x in es <==> Says(lines, x)
    ensures Lists(es, e.path) <==>
      exists i | 0 <= i < |lines| :: ReadLine(lines[i]).Listed? && ReadLine(lines[i]).e.path == e.path
  {
    hide ReadLine;
    if Lists(es, e.path) {
      var j :| 0 <= j < |es| && es[j].path == e.path;
      assert es[j] in es;
    }
    if exists i | 0 <= i < |lines| :: ReadLine(lines[i]).Listed? && ReadLine(lines[i]).e.path == e.path {
      var i :| 0 <= i < |lines| && ReadLine(lines[i]).Listed? && ReadLine(lines[i]).e.path == e.path;
      assert Says(lines, ReadLine(lines[i]).e);
      var x := ReadLine(lines[i]).e;
      assert x in es;
      var j :| 0 <= j < |es| && es[j] == x;
    }
  }
}
