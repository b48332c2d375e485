/** The documents the parser takes are exactly those of the grammar of RFC 8259 in which no
    object names a member twice, and it takes each for what it says. */
module CanonicalGrammar {
  import opened Prelude
  import opened JsonValue
  import opened CanonicalNumber
  import opened CanonicalString
  import opened CanonicalJson

  // ---------------------------------------------------------------------
  // The grammar.

  /** Insignificant space: space, tab, line feed, carriage return. */
  predicate Ws(s: string) {
    forall i | 0 <= i < |s| :: s[i] as int in {0x20, 0x09, 0x0A, 0x0D}
  }

  /** A text as it stands in a document: raw is what is between the quotes of a string,
      gap the space in an empty bracket. */
  datatype Node =
    | NullNode | BoolNode(b: bool)
    | StrNode(raw: string, s: string)
    | NumNode(lit: NumLit)
    | ArrNode(gap: string, items: seq<Slot>)
    | ObjNode(gap: string, members: seq<Member>)

  datatype Slot = Slot(before: string, node: Node, after: string)

  datatype Member = Member(before: string, raw: string, name: string, after: string, slot: Slot)

  /** raw, closed by a quote, is a literal of s. */
  predicate Raw(raw: string, s: string) {
    ReadChars(raw + "\"") == Some((s, ""))
  }

  predicate Form(n: Node) {
    match n
    case NullNode => true
    case BoolNode(_) => true
    case StrNode(raw, s) => Raw(raw, s)
    case NumNode(lit) => LitForm(lit)
    case ArrNode(gap, items) =>
      Ws(gap) && (items != [] ==> gap == "") && forall i | 0 <= i < |items| :: SlotForm(items[i])
    case ObjNode(gap, members) =>
      && Ws(gap) && (members != [] ==> gap == "")
      && (forall i | 0 <= i < |members| :: MemberForm(members[i]))
      && (forall i, j | 0 <= i < j < |members| :: members[i].name != members[j].name)
  }

  predicate SlotForm(s: Slot) {
    Ws(s.before) && Form(s.node) && Ws(s.after)
  }

  predicate MemberForm(m: Member) {
    Ws(m.before) && Raw(m.raw, m.name) && Ws(m.after) && SlotForm(m.slot)
  }

  function Text(n: Node): string
    decreases n, 1
  {
    match n
    case NullNode => "null"
    case BoolNode(b) => if b then "true" else "false"
    case StrNode(raw, _) => "\"" + (raw + "\"")
    case NumNode(lit) => LitText(lit)
    case ArrNode(gap, items) => "[" + (gap + (SlotsText(n, items) + "]"))
    case ObjNode(gap, members) => "{" + (gap + (MembersText(n, members) + "}"))
  }

  function SlotText(s: Slot): string
    decreases s
  {
    s.before + (Text(s.node) + s.after)
  }

  function SlotsText(n: Node, items: seq<Slot>): string
    requires forall i | 0 <= i < |items| :: items[i] < n
    decreases n, 0, |items|
  {
    if items == [] then ""
    else SlotText(items[0]) + if |items| == 1 then "" else "," + SlotsText(n, items[1..])
  }

  function MemberText(m: Member): string
    decreases m
  {
    m.before + ("\"" + (m.raw + ("\"" + (m.after + (":" + SlotText(m.slot))))))
  }

  function MembersText(n: Node, members: seq<Member>): string
    requires forall i | 0 <= i < |members| :: members[i] < n
    decreases n, 0, |members|
  {
    if members == [] then ""
    else MemberText(members[0]) + if |members| == 1 then "" else "," + MembersText(n, members[1..])
  }

  /** What a text says. */
  function Value(n: Node): Json
    decreases n, 1
  {
    match n
    case NullNode => Null
    case BoolNode(b) => Bool(b)
    case StrNode(_, s) => Str(s)
    case NumNode(lit) => Num(LitText(lit))
    case ArrNode(_, items) => Arr(Values(n, items))
    case ObjNode(_, members) => Obj(Fold(n, map[], members))
  }

  function Values(n: Node, items: seq<Slot>): (vs: seq<Json>)
    requires forall i | 0 <= i < |items| :: items[i] < n
    decreases n, 0, |items|
  {
    if items == [] then [] else [Value(items[0].node)] + Values(n, items[1..])
  }

  function Fold(n: Node, seen: map<string, Json>, members: seq<Member>): map<string, Json>
    requires forall i | 0 <= i < |members| :: members[i] < n
    decreases n, 0, |members|
  {
    if members == [] then seen
    else Fold(n, seen[members[0].name := Value(members[0].slot.node)], members[1..])
  }

  // ---------------------------------------------------------------------
  // Space.

  lemma WsChar(c: char)
    ensures IsSpace(c) <==> c as int in {0x20, 0x09, 0x0A, 0x0D}
  {
  }

  /** Skipping space takes it all and nothing else. */
  lemma {:induction false} SkipWs(a: string, t: string)
    requires Ws(a) && (t != "" ==> !IsSpace(t[0]))
    ensures SkipSpace(a + t) == t
    decreases |a|
  {
    if a == "" {
      assert a + t == t;
    } else {
      WsChar(a[0]);
      assert (a + t)[1..] == a[1..] + t;
      SkipWs(a[1..], t);
    }
  }

  lemma {:induction false} SkippedWs(s: string) returns (a: string)
    ensures Ws(a) && s == a + SkipSpace(s)
    decreases |s|
  {
    if s != "" && IsSpace(s[0]) {
      WsChar(s[0]);
      var more := SkippedWs(s[1..]);
      a := [s[0]] + more;
      assert s == [s[0]] + s[1..];
    } else {
      a := "";
    }
  }

  // ---------------------------------------------------------------------
  // Strings end where their closing quote stands.

  /** Whether an escape starts here does not depend on what follows the closing quote. */
  lemma UnicodeLocal(x: string, rest: string)
    ensures UnicodeAt(x + "\"" + rest) == UnicodeAt(x + "\"")
    ensures UnicodeAt(x + "\"").Some? ==> |x| >= 6
  {
    var s, t := x + "\"" + rest, x + "\"";
    if |x| >= 6 {
      assert s[2..6] == t[2..6] == x[2..6];
      assert s[0] == t[0] && s[1] == t[1];
    } else if 2 <= |x| {
      QuoteIsNoDigit(s, x, rest);
      if |t| >= 6 {
        QuoteIsNoDigit(t, x, "");
        assert x + "\"" + "" == t;
      }
    } else {
      assert |s| > |x| && s[|x|] == '"' && t[|x|] == '"';
    }
  }

  lemma QuoteIsNoDigit(s: string, x: string, rest: string)
    requires 2 <= |x| < 6 && s == x + "\"" + rest
    ensures |s| >= 6 ==> Hex4(s[2..6]).None?
  {
    if |s| >= 6 {
      var k := |x| - 2;
      assert s[2..6][k] == s[|x|] == '"';
      assert HexValue('"').None?;
    }
  }

  /** One element of a literal, read whatever follows the literal. */
  lemma ElemLocal(x: string, rest: string)
    requires x != ""
    ensures ReadElem(x + "\"").Some? <==> ReadElem(x + "\"" + rest).Some?
    ensures ReadElem(x + "\"").Some? ==>
      var (c, y) := ReadElem(x + "\"").value;
      var n := |x| + 1 - |y|;
      && 0 < n && y == (x + "\"")[n..] && ReadElem(x + "\"" + rest) == Some((c, y + rest))
  {
    var s, t := x + "\"" + rest, x + "\"";
    assert s[0] == t[0] == x[0] && s[1] == t[1];
    assert s[1..] == t[1..] + rest && s[2..] == t[2..] + rest;
    if s[0] == '\\' && Short(s[1]).None? {
      UnicodeLocal(x, rest);
      if UnicodeAt(t).Some? {
        assert s[6..] == x[6..] + "\"" + rest && t[6..] == x[6..] + "\"";
        assert s[6..] == t[6..] + rest;
        UnicodeLocal(x[6..], rest);
        if UnicodeAt(t[6..]).Some? {
          assert s[12..] == t[12..] + rest;
        }
      }
    }
    hide UnicodeAt, Hex4;
  }

  /** A literal reads the same whatever follows it. */
  lemma {:induction false} RawBack(raw: string, s: string, rest: string)
    requires Raw(raw, s)
    ensures ReadChars(raw + "\"" + rest) == Some((s, rest))
    decreases |raw|
  {
    hide ReadElem;
    if raw == "" || raw[0] == '"' {
      QuoteFirst(raw, s);
      assert (raw + "\"" + rest)[1..] == rest;
    } else {
      ElemLocal(raw, rest);
      var (c, y) := ReadElem(raw + "\"").value;
      var n := |raw| + 1 - |y|;
      RawTail(raw, n, y, s);
      var tl := raw[n..];
      assert y == tl + "\"";
      RawBack(tl, s[1..], rest);
      assert tl + "\"" + rest == y + rest;
      assert (raw + "\"" + rest)[0] != '"';
      assert s == [c] + s[1..];
    }
  }

  lemma QuoteFirst(raw: string, s: string)
    requires Raw(raw, s) && (raw == "" || raw[0] == '"')
    ensures raw == "" && s == ""
  {
    assert |(raw + "\"")[1..]| == |raw|;
  }

  /** After one element of a literal the rest of it is one. */
  lemma RawTail(raw: string, n: nat, y: string, s: string)
    requires Raw(raw, s) && raw != "" && raw[0] != '"' && ReadElem(raw + "\"").Some?
    requires y == ReadElem(raw + "\"").value.1 && 0 < n <= |raw| + 1 && y == (raw + "\"")[n..]
    ensures n <= |raw| && y == raw[n..] + "\"" && s != "" && s[0] == ReadElem(raw + "\"").value.0 && Raw(raw[n..], s[1..])
  {
    hide ReadElem;
    assert (raw + "\"")[0] != '"';
    var more := ReadChars(y);
    NothingRead();
    assert y == raw[n..] + "\"";
    assert s == [ReadElem(raw + "\"").value.0] + more.value.0;
  }

  lemma NothingRead()
    ensures ReadChars("") == None
  {
  }

  /** What was read as a literal is one, up to its quote. */
  lemma {:induction false} ReadRaw(t: string) returns (raw: string)
    requires ReadChars(t).Some?
    ensures var (s, rest) := ReadChars(t).value; t == raw + "\"" + rest && Raw(raw, s)
    decreases |t|
  {
    var (s, rest) := ReadChars(t).value;
    if t[0] == '"' {
      raw := "";
      assert t == "\"" + rest;
      assert (raw + "\"")[1..] == "";
    } else {
      var (c, t1) := ReadElem(t).value;
      var more := ReadRaw(t1);
      ElemSuffix(t);
      var n := |t| - |t1|;
      raw := t[..n] + more;
      assert t == t[..n] + t1 == raw + "\"" + rest;
      hide ReadElem;
      ElemLocal(raw, rest);
      RawJoin(raw, n, more, c, t1, rest, s);
    }
  }

  lemma ElemSuffix(t: string)
    requires ReadElem(t).Some?
    ensures var y := ReadElem(t).value.1; |y| < |t| && y == t[|t| - |y|..] && t[0] != '"'
  {
    hide Hex4, Short;
  }

  lemma RawJoin(raw: string, n: nat, more: string, c: char, t1: string, rest: string, s: string)
    requires raw != "" && 0 < n <= |raw| && more == raw[n..] && t1 == more + "\"" + rest && raw[0] != '"'
    requires ReadElem(raw + "\"" + rest) == Some((c, t1))
    requires s != "" && s[0] == c && Raw(more, s[1..])
    ensures Raw(raw, s)
  {
    hide ReadElem;
    ElemLocal(raw, rest);
    var (d, y) := ReadElem(raw + "\"").value;
    assert y + rest == t1;
    assert (raw + "\"")[..] == raw + "\"";
    SameTail(y, more + "\"", rest);
    assert (raw + "\"")[0] != '"';
    assert s == [c] + s[1..];
  }

  lemma SameTail(a: string, b: string, rest: string)
    requires a + rest == b + rest
    ensures a == b
  {
    assert |a| == |b|;
    assert (a + rest)[..|a|] == a && (b + rest)[..|b|] == b;
  }
}
