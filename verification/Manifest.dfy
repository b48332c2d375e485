/** The digest list that travels with a model's weights, in the format of sha256sum. */
module Manifest {
  import opened Prelude
  import opened Names

  datatype Entry = Entry(sum: string, path: string)

  const MANIFEST_NAME := "nodary-manifest.sha256"
  const LINE_MAX: nat := 0x10_0000

  predicate IsSpace(c: char) {
    || '\t' <= c <= '\r' || c == ' ' || c == '\U{85}' || c == '\U{A0}' || c == '\U{1680}'
    || '\U{2000}' <= c <= '\U{200A}' || c == '\U{2028}' || c == '\U{2029}' || c == '\U{202F}'
    || c == '\U{205F}' || c == '\U{3000}'
  }

  function TrimLeft(s: string): string {
    if s != "" && IsSpace(s[0]) then TrimLeft(s[1..]) else s
  }

  function TrimRight(s: string): string {
    if s != "" && IsSpace(s[|s| - 1]) then TrimRight(s[..|s| - 1]) else s
  }

  function TrimSpace(s: string): string {
    TrimLeft(TrimRight(s))
  }

  predicate IsHex(c: char) { '0' <= c <= '9' || 'a' <= c <= 'f' || 'A' <= c <= 'F' }

  function Lower(c: char): char {
    if 'A' <= c <= 'Z' then c - 'A' + 'a' else c
  }

  function LowerAll(s: string): string {
    seq(|s|, i requires 0 <= i < |s| => Lower(s[i]))
  }

  /** Where the first space stands, or the length. */
  function FirstSpace(s: string): (n: nat)
    ensures n <= |s| && (n < |s| ==> s[n] == ' ') && forall i | 0 <= i < n :: s[i] != ' '
  {
    if s == "" || s[0] == ' ' then 0 else 1 + FirstSpace(s[1..])
  }

  datatype LineRead = Blank | Bad | Listed(e: Entry)

  function Starred(s: string): string {
    if s != "" && s[0] == '*' then s[1..] else s
  }

  function ReadLine(line: string): LineRead {
    var text := TrimSpace(line);
    if text == "" || text[0] == '#' then Blank
    else
      var n := FirstSpace(text);
      if n == |text| || n != 64 || exists i | 0 <= i < n :: !IsHex(text[i]) then Bad
      else
        var path := Starred(TrimSpace(text[n + 1..]));
        if path == "" then Bad else Listed(Entry(LowerAll(text[..n]), path))
  }

  /** The scanner's lines: cut at newlines, one trailing carriage return dropped, and
      nothing after the last newline unless something is there. */
  function DropReturn(s: string): string {
    if s != "" && s[|s| - 1] == '\r' then s[..|s| - 1] else s
  }

  function Newline(s: string): (n: nat)
    ensures n <= |s| && (n < |s| ==> s[n] == '\n') && forall i | 0 <= i < n :: s[i] != '\n'
  {
    if s == "" || s[0] == '\n' then 0 else 1 + Newline(s[1..])
  }

  /** None when a line is longer than the reader takes. */
  function Lines(body: string): Option<seq<string>>
    decreases |body|
  {
    if body == "" then Some([])
    else
      var n := Newline(body);
      var rest := if n < |body| then Lines(body[n + 1..]) else Some([]);
      if n >= LINE_MAX || rest.None? then None else Some([DropReturn(body[..n])] + rest.value)
  }

  /** Entries are kept in the order of their paths. */
  function InsertEntry(es: seq<Entry>, e: Entry): seq<Entry>
    decreases |es|
  {
    if es == [] || !Before(e.path, es[|es| - 1].path) then es + [e]
    else InsertEntry(es[..|es| - 1], e) + [es[|es| - 1]]
  }

  predicate Lists(es: seq<Entry>, path: string) {
    exists i | 0 <= i < |es| :: es[i].path == path
  }

  /** What the lines list, sorted; None when one of them is no digest line or names a
      file already named. */
  function Collect(lines: seq<string>): Option<seq<Entry>>
    decreases |lines|
  {
    if lines == [] then Some([])
    else
      var before := Collect(lines[..|lines| - 1]);
      match ReadLine(lines[|lines| - 1])
      case Blank => before
      case Bad => None
      case Listed(e) =>
        if before.None? || Lists(before.value, e.path) then None else Some(InsertEntry(before.value, e))
  }

  function ParseManifest(body: string): Option<seq<Entry>> {
    var lines := Lines(body);
    if lines.None? then None else Collect(lines.value)
  }

  /** One line per file: digest, two spaces, name. */
  function Body(es: seq<Entry>): string
    decreases |es|
  {
    if es == [] then "" else es[0].sum + "  " + es[0].path + "\n" + Body(es[1..])
  }

  // ---------------------------------------------------------------------
  // The loops.

  method ReadManifest(body: string) returns (out: Option<seq<Entry>>)
    ensures out == ParseManifest(body)
  {
    var es: seq<Entry>, seen: set<string>, rest := [], {}, body;
    ghost var lines: seq<string> := [];
    var bad := false;
    assert Lines(body).Some? ==> [] + Lines(body).value == Lines(body).value;
    while rest != ""
      invariant bad ==> Collect(lines).None?
      invariant !bad ==> Collect(lines) == Some(es)
      invariant forall x :: x in seen <==> Lists(es, x)
      invariant Lines(body) == Joined(lines, Lines(rest))
      decreases |rest|
    {
      var n := Newline(rest);
      if n >= LINE_MAX {
        return None;
      }
      var line := DropReturn(rest[..n]);
      ghost var was := lines;
      lines := lines + [line];
      assert lines[..|lines| - 1] == was;
      ghost var from := rest;
      rest := if n < |rest| then rest[n + 1..] else "";
      JoinedStep(was, from, rest);
      if !bad {
        var read := ReadLine(line);
        match read {
          case Blank =>
          case Bad => bad := true;
          case Listed(e) =>
            if e.path in seen {
              bad := true;
            } else {
              InsertLists(es, e);
              seen := seen + {e.path};
              es := InsertEntry(es, e);
            }
        }
      } else {
        BadStays(lines);
      }
    }
    assert Lines("") == Some([]) && lines + [] == lines;
    return if bad then None else Some(es);
  }

  ghost function Joined(lines: seq<string>, rest: Option<seq<string>>): Option<seq<string>> {
    if rest.None? then None else Some(lines + rest.value)
  }

  lemma JoinedStep(lines: seq<string>, from: string, rest: string)
    requires from != "" && Newline(from) < LINE_MAX
    requires rest == if Newline(from) < |from| then from[Newline(from) + 1..] else ""
    ensures Joined(lines, Lines(from)) == Joined(lines + [DropReturn(from[..Newline(from)])], Lines(rest))
  {
    var line := DropReturn(from[..Newline(from)]);
    LinesStep(from, rest);
    hide DropReturn, Lines;
    if Lines(rest).Some? {
      assert lines + ([line] + Lines(rest).value) == (lines + [line]) + Lines(rest).value;
    }
  }

  lemma LinesStep(from: string, rest: string)
    requires from != "" && Newline(from) < LINE_MAX
    requires rest == if Newline(from) < |from| then from[Newline(from) + 1..] else ""
    ensures Lines(from) ==
      if Lines(rest).None? then None else Some([DropReturn(from[..Newline(from)])] + Lines(rest).value)
  {
    hide DropReturn, Newline;
    if rest == "" {
      NoLines();
    }
  }

  lemma BadStays(lines: seq<string>)
    requires lines != [] && Collect(lines[..|lines| - 1]).None?
    ensures Collect(lines).None?
  {
  }

  lemma {:induction false} InsertLists(es: seq<Entry>, e: Entry)
    ensures forall x :: Lists(InsertEntry(es, e), x) <==> Lists(es, x) || x == e.path
    decreases |es|
  {
    var out := InsertEntry(es, e);
    if es == [] || !Before(e.path, es[|es| - 1].path) {
      forall x ensures Lists(out, x) <==> Lists(es, x) || x == e.path {
        assert out[|es|] == e;
        if Lists(es, x) {
          var i :| 0 <= i < |es| && es[i].path == x;
          assert out[i].path == x;
        }
      }
    } else {
      var k := |es| - 1;
      InsertLists(es[..k], e);
      var head := InsertEntry(es[..k], e);
      forall x ensures Lists(out, x) <==> Lists(es, x) || x == e.path {
        ListsSnoc(head, es[k], x);
        ListsSnoc(es[..k], es[k], x);
        assert es[..k] + [es[k]] == es;
      }
    }
  }

  lemma ListsSnoc(es: seq<Entry>, e: Entry, x: string)
    ensures Lists(es + [e], x) <==> Lists(es, x) || e.path == x
  {
    var out := es + [e];
    assert out[|es|] == e;
    if Lists(es, x) {
      var i :| 0 <= i < |es| && es[i].path == x;
      assert out[i].path == x;
    }
  }

  // ---------------------------------------------------------------------
  // Reading back what was written.

  /** A name its line gives back: on one line, nothing to trim, no leading star. */
  predicate Plain(name: string) {
    && name != "" && TrimSpace(name) == name && name[0] != '*'
    && (forall i | 0 <= i < |name| :: name[i] != '\n') && |name| + 66 < LINE_MAX
  }

  predicate Written(es: seq<Entry>) {
    && (forall i | 0 <= i < |es| :: Writable(es[i]))
    && (forall i, j | 0 <= i < j < |es| :: Before(es[i].path, es[j].path))
  }

  lemma EndsFixed(s: string)
    requires s != "" && !IsSpace(s[0]) && !IsSpace(s[|s| - 1])
    ensures TrimSpace(s) == s
  {
  }

  lemma {:induction false} TrimRightShort(s: string)
    ensures |TrimRight(s)| <= |s| && (|TrimRight(s)| == |s| <==> s == "" || !IsSpace(s[|s| - 1]))
    ensures |TrimRight(s)| == |s| ==> TrimRight(s) == s
    decreases |s|
  {
    if s != "" && IsSpace(s[|s| - 1]) {
      TrimRightShort(s[..|s| - 1]);
    }
  }

  lemma {:induction false} TrimLeftShort(s: string)
    ensures |TrimLeft(s)| <= |s| && (|TrimLeft(s)| == |s| <==> s == "" || !IsSpace(s[0]))
    decreases |s|
  {
    if s != "" && IsSpace(s[0]) {
      TrimLeftShort(s[1..]);
    }
  }

  lemma TrimmedEnds(s: string)
    requires s != "" && TrimSpace(s) == s
    ensures !IsSpace(s[0]) && !IsSpace(s[|s| - 1])
  {
    TrimRightShort(s);
    TrimLeftShort(TrimRight(s));
  }

  lemma DigestLine(sum: string, name: string)
    requires HexHash(sum) && name != "" && !IsSpace(name[|name| - 1])
    ensures var text := sum + "  " + name;
      && TrimSpace(text) == text && text[0] != '#' && FirstSpace(text) == 64
      && text[..64] == sum && text[65..] == " " + name && LowerAll(sum) == sum
      && forall i | 0 <= i < 64 :: IsHex(text[i])
  {
    var text := sum + "  " + name;
    assert text[0] == sum[0] && !IsSpace(text[0]);
    assert text[|text| - 1] == name[|name| - 1];
    EndsFixed(text);
    var n := FirstSpace(text);
    assert text[64] == ' ';
    assert forall i | 0 <= i < 64 :: text[i] == sum[i] != ' ';
    assert LowerAll(sum) == sum;
  }

  lemma SpacedName(name: string)
    requires name != "" && !IsSpace(name[|name| - 1])
    ensures TrimSpace(" " + name) == TrimSpace(name)
  {
    var s := " " + name;
    assert s[1..] == name;
    assert s[|s| - 1] == name[|name| - 1];
  }

  function LineOf(e: Entry): string {
    e.sum + "  " + e.path
  }

  function Texts(es: seq<Entry>): (ts: seq<string>)
    ensures |ts| == |es| && forall i | 0 <= i < |es| :: ts[i] == DropReturn(LineOf(es[i]))
  {
    if es == [] then [] else [DropReturn(LineOf(es[0]))] + Texts(es[1..])
  }

  predicate Writable(e: Entry) {
    HexHash(e.sum) && Plain(e.path)
  }

  lemma LineFits(e: Entry)
    requires Writable(e)
    ensures (forall i | 0 <= i < |LineOf(e)| :: LineOf(e)[i] != '\n') && |LineOf(e)| < LINE_MAX
  {
    hide TrimSpace;
    var text := LineOf(e);
    forall i | 0 <= i < |text| ensures text[i] != '\n' {
      if i < 64 {
        assert text[i] == e.sum[i];
      } else if i >= 66 {
        assert text[i] == e.path[i - 66];
      }
    }
  }

  lemma {:induction false} LinesBack(es: seq<Entry>)
    requires forall i | 0 <= i < |es| :: Writable(es[i])
    ensures Lines(Body(es)) == Some(Texts(es))
    decreases |es|
  {
    hide Writable, Lines, DropReturn;
    if es == [] {
      NoLines();
    } else {
      LinesBack(es[1..]);
      LineFits(es[0]);
      LinesCons(LineOf(es[0]), Body(es[1..]));
      assert Body(es) == LineOf(es[0]) + ("\n" + Body(es[1..]));
    }
  }

  lemma NoLines()
    ensures Lines("") == Some([])
  {
  }

  lemma LinesCons(text: string, rest: string)
    requires (forall i | 0 <= i < |text| :: text[i] != '\n') && |text| < LINE_MAX && Lines(rest).Some?
    ensures Lines(text + ("\n" + rest)) == Some([DropReturn(text)] + Lines(rest).value)
  {
    hide DropReturn;
    FirstLine(text, rest);
  }

  lemma FirstLine(text: string, rest: string)
    requires forall i | 0 <= i < |text| :: text[i] != '\n'
    ensures var body := text + ("\n" + rest);
      Newline(body) == |text| && body[..|text|] == text && body[|text| + 1..] == rest
  {
    var body := text + ("\n" + rest);
    assert body[|text|] == '\n';
    assert forall i | 0 <= i < |text| :: body[i] == text[i];
  }

  /** A written line reads back as its entry. */
  lemma LineBack(e: Entry)
    requires Writable(e)
    ensures ReadLine(DropReturn(LineOf(e))) == Listed(e)
  {
    hide TrimSpace, FirstSpace, LowerAll;
    TrimmedEnds(e.path);
    var text := e.sum + "  " + e.path;
    assert text[|text| - 1] == e.path[|e.path| - 1];
    assert IsSpace('\r');
    assert DropReturn(text) == text;
    DigestLine(e.sum, e.path);
    SpacedName(e.path);
  }

  lemma {:induction false} CollectBack(es: seq<Entry>, lines: seq<string>)
    requires Written(es) && |lines| == |es|
    requires forall i | 0 <= i < |es| :: ReadLine(lines[i]) == Listed(es[i])
    ensures Collect(lines) == Some(es)
    decreases |es|
  {
    hide ReadLine, Writable;
    if es != [] {
      var k := |es| - 1;
      assert Written(es[..k]);
      CollectBack(es[..k], lines[..k]);
      forall i | 0 <= i < k ensures es[i].path != es[k].path && !Before(es[k].path, es[i].path) {
        BeforeFacts(es[i].path, es[k].path);
      }
      assert !Lists(es[..k], es[k].path);
      assert InsertEntry(es[..k], es[k]) == es[..k] + [es[k]] == es;
    }
  }

  /** The list that was written is the list that is read. */
  lemma ManifestBack(es: seq<Entry>)
    requires Written(es)
    ensures ParseManifest(Body(es)) == Some(es)
  {
    hide ReadLine, Writable, DropReturn, LineOf, Lines;
    LinesBack(es);
    var lines := Texts(es);
    forall i | 0 <= i < |es| ensures ReadLine(lines[i]) == Listed(es[i]) {
      LineBack(es[i]);
    }
    CollectBack(es, lines);
  }
}
