/** Canonical JSON documents: the printer, the duplicate-refusing parser of RFC
    8259 texts, and what the one does to the other. */
module CanonicalJson {
  import opened Prelude
  import opened JsonValue
  import opened CanonicalNumber
  import opened CanonicalString
  import opened CanonicalSurrogates

  // ---------------------------------------------------------------------
  // Printing.

  ghost predicate IsLeast(s: set<string>, k: string) {
    k in s && forall x | x in s :: x == k || Less(k, x)
  }

  lemma LeastStep(t: set<string>, k: string, e: string)
    requires IsLeast(t, k)
    ensures exists m :: IsLeast(t + {e}, m)
  {
    hide Less;
    LessTotal(e, k);
    if Less(e, k) {
      forall x | x in t + {e} ensures x == e || Less(e, x) {
        if x != e && x != k {
          LessTransitive(e, k, x);
        }
      }
      assert IsLeast(t + {e}, e);
    } else {
      assert IsLeast(t + {e}, k);
    }
  }

  lemma {:induction false} LeastExists(s: set<string>)
    requires s != {}
    ensures exists k :: IsLeast(s, k)
    decreases |s|
  {
    hide Less;
    assert (forall e :: e !in s) ==> s == {};
    var e :| e in s;
    var t := s - {e};
    assert s == t + {e};
    if t == {} {
      assert IsLeast(s, e);
    } else {
      LeastExists(t);
      var k :| IsLeast(t, k);
      LeastStep(t, k, e);
    }
  }

  ghost function Least(s: set<string>): (k: string)
    requires s != {}
    ensures k in s && forall x | x in s :: x == k || Less(k, x)
  {
    LeastExists(s);
    var k :| IsLeast(s, k);
    k
  }

  /** Names in section 3.2.3 order. */
  ghost function SortedNames(s: set<string>): (ks: seq<string>)
    ensures SortedKeys(ks) && forall k :: k in ks <==> k in s
    ensures forall i | 0 <= i < |ks| :: ks[i] in s
    decreases |s|
  {
    if s == {} then []
    else
      var k := Least(s);
      [k] + SortedNames(s - {k})
  }

  /** A number's canonical text, or None when it is refused. */
  function NumberText(fl: Floats, v: Json): Option<string>
    requires Lawful(fl) && (v.Int? || v.Flt? || v.Num?)
  {
    match v
    case Int(i) => FormatInt(fl, i)
    case Flt(f) => if f.Fin? && !ShortestForm(f) then None else FormatNumber(f)
    case Num(lit) => FormatJSONNumber(fl, lit)
  }

  /** v is encoded and not refused. */
  predicate Printable(fl: Floats, v: Json)
    requires Lawful(fl)
  {
    match v
    case Null => true
    case Bool(_) => true
    case Str(_) => true
    case Int(_) => NumberText(fl, v).Some?
    case Flt(_) => NumberText(fl, v).Some?
    case Num(_) => NumberText(fl, v).Some?
    case Arr(es) => forall i | 0 <= i < |es| :: Printable(fl, es[i])
    case Obj(m) => forall k | k in m :: Printable(fl, m[k])
  }

  ghost function Print(fl: Floats, v: Json): string
    requires Lawful(fl) && Printable(fl, v)
    decreases v, 1
  {
    match v
    case Null => "null"
    case Bool(b) => if b then "true" else "false"
    case Str(s) => Quoted(s)
    case Int(_) => NumberText(fl, v).value
    case Flt(_) => NumberText(fl, v).value
    case Num(_) => NumberText(fl, v).value
    case Arr(es) => "[" + (PrintElems(fl, v, es) + "]")
    case Obj(m) => "{" + (PrintMembers(fl, v, m, SortedNames(m.Keys)) + "}")
  }

  ghost function PrintElems(fl: Floats, v: Json, es: seq<Json>): string
    requires Lawful(fl) && forall i | 0 <= i < |es| :: es[i] < v && Printable(fl, es[i])
    decreases v, 0, |es|
  {
    if es == [] then ""
    else Print(fl, es[0]) + (if |es| == 1 then "" else "," + PrintElems(fl, v, es[1..]))
  }

  ghost function PrintMembers(fl: Floats, v: Json, m: map<string, Json>, ks: seq<string>): string
    requires Lawful(fl) && forall i | 0 <= i < |ks| :: ks[i] in m && m[ks[i]] < v && Printable(fl, m[ks[i]])
    decreases v, 0, |ks|
  {
    if ks == [] then ""
    else Quoted(ks[0]) + (":" + (Print(fl, m[ks[0]]) +
         (if |ks| == 1 then "" else "," + PrintMembers(fl, v, m, ks[1..]))))
  }

  ghost function Marshal(fl: Floats, v: Json): Option<string>
    requires Lawful(fl)
  {
    if Printable(fl, v) then Some(Print(fl, v)) else None
  }

  /** What v is once printed: every number as its canonical literal. */
  function Canon(fl: Floats, v: Json): Json
    requires Lawful(fl) && Printable(fl, v)
  {
    match v
    case Null => v
    case Bool(_) => v
    case Str(_) => v
    case Int(_) => Num(NumberText(fl, v).value)
    case Flt(_) => Num(NumberText(fl, v).value)
    case Num(_) => Num(NumberText(fl, v).value)
    case Arr(es) => Arr(seq(|es|, i requires 0 <= i < |es| => Canon(fl, es[i])))
    case Obj(m) => Obj(map k | k in m :: Canon(fl, m[k]))
  }

  // ---------------------------------------------------------------------
  // Parsing.

  datatype Refusal = Syntax | DuplicateKey | Trailing | LoneSurrogate | Number

  datatype Parsed<T> = Got(value: T, rest: string) | Refused(why: Refusal)

  predicate IsSpace(c: char) { c == ' ' || c == '\t' || c == '\n' || c == '\r' }

  function SkipSpace(s: string): (t: string)
    ensures |t| <= |s|
    ensures t != "" ==> !IsSpace(t[0])
  {
    if s != "" && IsSpace(s[0]) then SkipSpace(s[1..]) else s
  }

  function ReadValue(s: string): (p: Parsed<Json>)
    ensures p.Got? ==> |p.rest| < |s|
    decreases |s|, 1
  {
    var t := SkipSpace(s);
    if t == "" then Refused(Syntax)
    else if t[0] == '{' then
      var u := SkipSpace(t[1..]);
      if u != "" && u[0] == '}' then Got(Obj(map[]), u[1..])
      else
        match ReadMembers(t[1..], map[])
        case Got(m, r) => Got(Obj(m), r)
        case Refused(e) => Refused(e)
    else if t[0] == '[' then
      var u := SkipSpace(t[1..]);
      if u != "" && u[0] == ']' then Got(Arr([]), u[1..])
      else
        match ReadElems(t[1..])
        case Got(es, r) => Got(Arr(es), r)
        case Refused(e) => Refused(e)
    else if t[0] == '"' then
      match ReadChars(t[1..])
      case Some(r) => Got(Str(r.0), r.1)
      case None => Refused(Syntax)
    else if "null" <= t then Got(Null, t[4..])
    else if "true" <= t then Got(Bool(true), t[4..])
    else if "false" <= t then Got(Bool(false), t[5..])
    else
      match ReadLit(t)
      case Some(r) => Got(Num(LitText(r.0)), r.1)
      case None => Refused(Syntax)
  }

  /** One element or more, and the closing bracket. */
  function ReadElems(s: string): (p: Parsed<seq<Json>>)
    ensures p.Got? ==> |p.rest| < |s|
    decreases |s|, 2
  {
    match ReadValue(s)
    case Refused(e) => Refused(e)
    case Got(v, r) =>
      var t := SkipSpace(r);
      if t == "" then Refused(Syntax)
      else if t[0] == ']' then Got([v], t[1..])
      else if t[0] != ',' then Refused(Syntax)
      else
        match ReadElems(t[1..])
        case Refused(e) => Refused(e)
        case Got(more, u) => Got([v] + more, u)
  }

  /** One member or more on top of those seen, and the closing brace. */
  function ReadMembers(s: string, seen: map<string, Json>): (p: Parsed<map<string, Json>>)
    ensures p.Got? ==> |p.rest| < |s|
    decreases |s|, 0
  {
    var t := SkipSpace(s);
    if t == "" || t[0] != '"' then Refused(Syntax)
    else
      match ReadChars(t[1..])
      case None => Refused(Syntax)
      case Some(k) =>
        if k.0 in seen then Refused(DuplicateKey)
        else
          var c := SkipSpace(k.1);
          if c == "" || c[0] != ':' then Refused(Syntax)
          else
            match ReadValue(c[1..])
            case Refused(e) => Refused(e)
            case Got(v, r) =>
              var u := SkipSpace(r);
              if u == "" then Refused(Syntax)
              else if u[0] == '}' then Got(seen[k.0 := v], u[1..])
              else if u[0] != ',' then Refused(Syntax)
              else ReadMembers(u[1..], seen[k.0 := v])
  }

  /** A whole document: exactly one value. */
  function Parse(data: string): Parsed<Json> {
    match ReadValue(data)
    case Refused(e) => Refused(e)
    case Got(v, r) => if SkipSpace(r) == "" then Got(v, "") else Refused(Trailing)
  }

  /** The canonical form of a document, or why it has none. */
  ghost function EncodeJSON(fl: Floats, data: string): Parsed<string>
    requires Lawful(fl)
  {
    match Parse(data)
    case Refused(e) => Refused(e)
    case Got(v, _) =>
      if !Scan(data) then Refused(LoneSurrogate)
      else if !Printable(fl, v) then Refused(Number)
      else Got(Print(fl, v), "")
  }

  // ---------------------------------------------------------------------
  // The parser, one step at a time.

  predicate Closes(rest: string) {
    rest == "" || rest[0] == ',' || rest[0] == ']' || rest[0] == '}'
  }

  lemma StepNumber(t: string)
    requires t != "" && (t[0] == '-' || IsDigit(t[0])) && ReadLit(t).Some?
    ensures ReadValue(t) == Got(Num(LitText(ReadLit(t).value.0)), ReadLit(t).value.1)
  {
    hide ReadLit, ReadChars, LitText;
    assert SkipSpace(t) == t;
  }

  lemma StepString(inner: string)
    requires ReadChars(inner).Some?
    ensures ReadValue("\"" + inner) == Got(Str(ReadChars(inner).value.0), ReadChars(inner).value.1)
  {
    hide ReadLit, ReadChars;
    var t := "\"" + inner;
    assert t[1..] == inner && SkipSpace(t) == t;
  }

  lemma StepWord(v: Json, word: string, rest: string)
    requires (v == Null && word == "null") || (v == Bool(true) && word == "true") || (v == Bool(false) && word == "false")
    ensures ReadValue(word + rest) == Got(v, rest)
  {
    hide ReadLit, ReadChars;
    var t := word + rest;
    assert SkipSpace(t) == t;
    assert word <= t && t[|word|..] == rest;
    assert t[0] == word[0];
  }

  lemma StepEmpty(rest: string)
    ensures ReadValue("[" + ("]" + rest)) == Got(Arr([]), rest)
    ensures ReadValue("{" + ("}" + rest)) == Got(Obj(map[]), rest)
  {
    hide ReadLit, ReadChars, ReadElems, ReadMembers;
    var t, u := "[" + ("]" + rest), "{" + ("}" + rest);
    assert t[1..] == "]" + rest && u[1..] == "}" + rest;
    assert ("]" + rest)[1..] == rest && ("}" + rest)[1..] == rest;
    assert SkipSpace(t) == t && SkipSpace(u) == u;
    assert SkipSpace("]" + rest) == "]" + rest && SkipSpace("}" + rest) == "}" + rest;
  }

  /** s starts with something other than space or a closing bracket. */
  predicate Opened(s: string) {
    s != "" && !IsSpace(s[0]) && s[0] != ']' && s[0] != '}'
  }

  lemma StepArray(inner: string)
    requires Opened(inner) && ReadElems(inner).Got?
    ensures ReadValue("[" + inner) == Got(Arr(ReadElems(inner).value), ReadElems(inner).rest)
  {
    hide ReadLit, ReadChars, ReadElems, ReadMembers;
    var t := "[" + inner;
    assert t[1..] == inner && SkipSpace(t) == t && SkipSpace(inner) == inner;
  }

  lemma StepObject(inner: string)
    requires Opened(inner) && ReadMembers(inner, map[]).Got?
    ensures ReadValue("{" + inner) == Got(Obj(ReadMembers(inner, map[]).value), ReadMembers(inner, map[]).rest)
  {
    hide ReadLit, ReadChars, ReadElems, ReadMembers;
    var t := "{" + inner;
    assert t[1..] == inner && SkipSpace(t) == t && SkipSpace(inner) == inner;
  }

  lemma StepLast(s: string, v: Json, rest: string)
    requires ReadValue(s) == Got(v, "]" + rest)
    ensures ReadElems(s) == Got([v], rest)
  {
    hide ReadValue;
    assert SkipSpace("]" + rest) == "]" + rest && ("]" + rest)[1..] == rest;
  }

  lemma StepElem(s: string, v: Json, more: string)
    requires ReadValue(s) == Got(v, "," + more) && ReadElems(more).Got?
    ensures ReadElems(s) == Got([v] + ReadElems(more).value, ReadElems(more).rest)
  {
    hide ReadValue;
    assert SkipSpace("," + more) == "," + more && ("," + more)[1..] == more;
  }

  /** A key, its colon and its value. */
  lemma StepMember(inner: string, k: string, after: string, v: Json, r: string, seen: map<string, Json>)
    requires ReadChars(inner) == Some((k, ":" + after)) && k !in seen
    requires ReadValue(after) == Got(v, r) && r != "" && (r[0] == '}' || r[0] == ',')
    ensures ReadMembers("\"" + inner, seen) ==
      if r[0] == '}' then Got(seen[k := v], r[1..]) else ReadMembers(r[1..], seen[k := v])
  {
    hide ReadValue, ReadChars;
    var t := "\"" + inner;
    assert t[1..] == inner && SkipSpace(t) == t;
    assert SkipSpace(":" + after) == ":" + after && (":" + after)[1..] == after;
    assert SkipSpace(r) == r;
  }

  // ---------------------------------------------------------------------
  // What is printed is read back.

  lemma DoubleText(fl: Floats, f: F64)
    requires Lawful(fl) && IsDouble(fl, f) && FormatNumber(f).Some?
    ensures ParseLit(FormatNumber(f).value).Some?
    ensures FormatJSONNumber(fl, FormatNumber(f).value) == FormatNumber(f)
  {
    NumberStable(fl, f);
    LitOfText(f);
  }

  lemma LitOfText(f: F64)
    requires f.Fin? ==> ShortestForm(f)
    requires FormatNumber(f).Some?
    ensures ParseLit(FormatNumber(f).value).Some?
  {
    if f.Fin? {
      FormattedReads(f);
    } else {
      ZeroLit();
    }
  }

  lemma NumberIsLit(fl: Floats, v: Json)
    requires Lawful(fl) && (v.Int? || v.Flt? || v.Num?) && NumberText(fl, v).Some?
    ensures ParseLit(NumberText(fl, v).value).Some?
    ensures !v.Flt? ==> FormatJSONNumber(fl, NumberText(fl, v).value) == NumberText(fl, v)
  {
    match v
    case Int(i) =>
      assert IsDouble(fl, fl.nearest(DecOfInt(i)));
      DoubleText(fl, fl.nearest(DecOfInt(i)));
    case Flt(f) =>
      LitOfText(f);
    case Num(lit) =>
      SameNearest(fl, lit);
      NumberIdempotent(fl, lit);
  }

  lemma NumberStart(text: string, rest: string)
    requires ParseLit(text).Some?
    ensures text != "" && (text[0] == '-' || IsDigit(text[0]))
    ensures Opened(text + rest)
  {
    var l := ParseLit(text).value;
    BodyStart(l, "");
    assert BodyText(l) + "" == BodyText(l);
  }

  lemma NumberBack(text: string, rest: string)
    requires ParseLit(text).Some? && Closes(rest)
    ensures ReadValue(text + rest) == Got(Num(text), rest)
  {
    hide ReadLit, ReadValue, LitForm;
    var l := ParseLit(text).value;
    assert LitText(l) == text && LitForm(l);
    NumberStart(text, rest);
    ReadBack(l, rest);
    StepNumber(text + rest);
  }

  lemma StringValueBack(s: string, rest: string)
    ensures ReadValue(Quoted(s) + rest) == Got(Str(s), rest)
  {
    hide ReadValue, ReadChars;
    var inner := Escaped(s) + "\"" + rest;
    assert Quoted(s) + rest == "\"" + inner;
    StringBack(s, rest);
    StepString(inner);
  }

  /** What a printed value begins with: neither space nor a closing bracket. */
  lemma PrintStart(fl: Floats, v: Json, rest: string)
    requires Lawful(fl) && Printable(fl, v)
    ensures Opened(Print(fl, v) + rest)
  {
    hide PrintElems, PrintMembers, NumberText, Escaped;
    if v.Int? || v.Flt? || v.Num? {
      NumberIsLit(fl, v);
      NumberStart(NumberText(fl, v).value, rest);
    }
  }

  function CanonSeq(fl: Floats, es: seq<Json>): (cs: seq<Json>)
    requires Lawful(fl) && forall i | 0 <= i < |es| :: Printable(fl, es[i])
    ensures |cs| == |es| && forall i | 0 <= i < |es| :: cs[i] == Canon(fl, es[i])
  {
    seq(|es|, i requires 0 <= i < |es| => Canon(fl, es[i]))
  }

  lemma ElemsSplit(fl: Floats, v: Json, es: seq<Json>, rest: string)
    requires Lawful(fl) && es != [] && forall i | 0 <= i < |es| :: es[i] < v && Printable(fl, es[i])
    ensures PrintElems(fl, v, es) + ("]" + rest) ==
      Print(fl, es[0]) + (if |es| == 1 then "]" + rest
                          else "," + (PrintElems(fl, v, es[1..]) + ("]" + rest)))
    ensures |es| > 1 ==> CanonSeq(fl, es) == [Canon(fl, es[0])] + CanonSeq(fl, es[1..])
    ensures |es| == 1 ==> CanonSeq(fl, es) == [Canon(fl, es[0])]
  {
    hide Print, Canon, Lawful, Printable;
    ElemsCut(fl, v, es, rest);
    hide PrintElems;
    assert |es| > 1 ==> CanonSeq(fl, es) == [Canon(fl, es[0])] + CanonSeq(fl, es[1..]);
    assert |es| == 1 ==> CanonSeq(fl, es) == [Canon(fl, es[0])];
  }

  lemma ElemsCut(fl: Floats, v: Json, es: seq<Json>, rest: string)
    requires Lawful(fl) && es != [] && forall i | 0 <= i < |es| :: es[i] < v && Printable(fl, es[i])
    ensures PrintElems(fl, v, es) + ("]" + rest) ==
      Print(fl, es[0]) + (if |es| == 1 then "]" + rest
                          else "," + (PrintElems(fl, v, es[1..]) + ("]" + rest)))
  {
    hide Print, Lawful, Printable;
  }

  lemma {:induction false} ElemsBack(fl: Floats, v: Json, es: seq<Json>, rest: string)
    requires Lawful(fl) && es != [] && forall i | 0 <= i < |es| :: es[i] < v && Printable(fl, es[i])
    ensures ReadElems(PrintElems(fl, v, es) + ("]" + rest)) == Got(CanonSeq(fl, es), rest)
    decreases v, 0, |es|
  {
    hide Print, PrintElems, Canon, ReadElems, ReadValue, Lawful, Printable;
    ElemsSplit(fl, v, es, rest);
    var s := PrintElems(fl, v, es) + ("]" + rest);
    if |es| == 1 {
      ValueBack(fl, es[0], "]" + rest);
      StepLast(s, Canon(fl, es[0]), rest);
    } else {
      var more := PrintElems(fl, v, es[1..]) + ("]" + rest);
      ValueBack(fl, es[0], "," + more);
      ElemsBack(fl, v, es[1..], rest);
      StepElem(s, Canon(fl, es[0]), more);
    }
  }

  /** The members of m named in ks, in canonical form, on top of seen. */
  function CanonMembers(fl: Floats, m: map<string, Json>, ks: seq<string>, seen: map<string, Json>): map<string, Json>
    requires Lawful(fl) && forall i | 0 <= i < |ks| :: ks[i] in m && Printable(fl, m[ks[i]])
    decreases |ks|
  {
    if ks == [] then seen else CanonMembers(fl, m, ks[1..], seen[ks[0] := Canon(fl, m[ks[0]])])
  }

  lemma MembersSplit(fl: Floats, v: Json, m: map<string, Json>, ks: seq<string>, rest: string)
    requires Lawful(fl) && ks != []
    requires forall i | 0 <= i < |ks| :: ks[i] in m && m[ks[i]] < v && Printable(fl, m[ks[i]])
    ensures PrintMembers(fl, v, m, ks) + ("}" + rest) ==
      "\"" + (Escaped(ks[0]) + "\"" + (":" + (Print(fl, m[ks[0]]) +
        (if |ks| == 1 then "}" + rest else "," + (PrintMembers(fl, v, m, ks[1..]) + ("}" + rest))))))
  {
    hide Print, Escaped;
  }

  lemma {:induction false} MembersBack(fl: Floats, v: Json, m: map<string, Json>, ks: seq<string>, seen: map<string, Json>, rest: string)
    requires Lawful(fl) && ks != []
    requires forall i | 0 <= i < |ks| :: ks[i] in m && m[ks[i]] < v && Printable(fl, m[ks[i]])
    requires forall i, j | 0 <= i < j < |ks| :: ks[i] != ks[j]
    requires forall i | 0 <= i < |ks| :: ks[i] !in seen
    ensures ReadMembers(PrintMembers(fl, v, m, ks) + ("}" + rest), seen) == Got(CanonMembers(fl, m, ks, seen), rest)
    decreases v, 0, |ks|
  {
    hide Print, PrintMembers, Canon, ReadMembers, ReadValue, Lawful, Printable, Escaped, ReadChars;
    var k, x := ks[0], m[ks[0]];
    MembersSplit(fl, v, m, ks, rest);
    var seen' := seen[k := Canon(fl, x)];
    var more := if |ks| == 1 then "" else PrintMembers(fl, v, m, ks[1..]) + ("}" + rest);
    var tail := if |ks| == 1 then "}" + rest else "," + more;
    var after := Print(fl, x) + tail;
    assert tail[1..] == if |ks| == 1 then rest else more;
    StringBack(k, ":" + after);
    ValueBack(fl, x, tail);
    StepMember(Escaped(k) + "\"" + (":" + after), k, after, Canon(fl, x), tail, seen);
    if |ks| == 1 {
      assert ks[1..] == [];
    } else {
      MembersBack(fl, v, m, ks[1..], seen', rest);
    }
  }

  lemma {:induction false} CanonMembersAll(fl: Floats, m: map<string, Json>, ks: seq<string>, seen: map<string, Json>)
    requires Lawful(fl) && forall i | 0 <= i < |ks| :: ks[i] in m && Printable(fl, m[ks[i]])
    ensures var c := CanonMembers(fl, m, ks, seen);
      && c.Keys == seen.Keys + (set k | k in ks)
      && (forall k | k in ks :: k in m && Printable(fl, m[k]) && c[k] == Canon(fl, m[k]))
      && (forall k | k in seen && k !in ks :: c[k] == seen[k])
    decreases |ks|
  {
    hide Canon, Printable, Lawful;
    if ks != [] {
      CanonMembersAll(fl, m, ks[1..], seen[ks[0] := Canon(fl, m[ks[0]])]);
      assert forall k :: k in ks <==> k == ks[0] || k in ks[1..];
    }
  }

  lemma NamesDistinct(ks: seq<string>)
    requires SortedKeys(ks)
    ensures forall i, j | 0 <= i < j < |ks| :: ks[i] != ks[j]
  {
    hide Less;
    forall i, j | 0 <= i < j < |ks| ensures ks[i] != ks[j] {
      LessTotal(ks[i], ks[j]);
    }
  }

  lemma MemberPrintable(fl: Floats, m: map<string, Json>, k: string)
    requires Lawful(fl) && Printable(fl, Obj(m)) && k in m
    ensures Printable(fl, m[k])
  {
  }

  lemma {:induction false} CanonObject(fl: Floats, m: map<string, Json>)
    requires Lawful(fl) && Printable(fl, Obj(m))
    ensures forall i | 0 <= i < |SortedNames(m.Keys)| :: SortedNames(m.Keys)[i] in m
    ensures Canon(fl, Obj(m)) == Obj(CanonMembers(fl, m, SortedNames(m.Keys), map[]))
  {
    hide SortedNames, CanonMembers, Lawful, Printable;
    var ks := SortedNames(m.Keys);
    assert forall i | 0 <= i < |ks| :: ks[i] in ks;
    forall i | 0 <= i < |ks| ensures ks[i] in m && Printable(fl, m[ks[i]]) {
      MemberPrintable(fl, m, ks[i]);
    }
    CanonMembersAll(fl, m, ks, map[]);
    assert CanonMembers(fl, m, ks, map[]) == Canon(fl, Obj(m)).members;
  }

  lemma {:induction false} ObjectBack(fl: Floats, m: map<string, Json>, rest: string)
    requires Lawful(fl) && Printable(fl, Obj(m))
    ensures ReadValue(Print(fl, Obj(m)) + rest) == Got(Canon(fl, Obj(m)), rest)
    decreases Obj(m), 1
  {
    hide ReadValue, ReadMembers, PrintMembers, Canon, CanonMembers, SortedNames;
    var v, ks := Obj(m), SortedNames(m.Keys);
    assert forall i | 0 <= i < |ks| :: ks[i] in ks;
    CanonObject(fl, m);
    var inner := PrintMembers(fl, v, m, ks) + ("}" + rest);
    assert Print(fl, v) + rest == "{" + inner;
    if ks == [] {
      NoMembers(fl, v, m);
      assert inner == "}" + rest;
      StepEmpty(rest);
    } else {
      NamesDistinct(ks);
      MembersBack(fl, v, m, ks, map[], rest);
      MembersStart(fl, v, m, ks, rest);
      StepObject(inner);
    }
  }

  lemma NoMembers(fl: Floats, v: Json, m: map<string, Json>)
    requires Lawful(fl)
    ensures PrintMembers(fl, v, m, []) == "" && CanonMembers(fl, m, [], map[]) == map[]
  {
  }

  lemma MembersStart(fl: Floats, v: Json, m: map<string, Json>, ks: seq<string>, rest: string)
    requires Lawful(fl) && ks != []
    requires forall i | 0 <= i < |ks| :: ks[i] in m && m[ks[i]] < v && Printable(fl, m[ks[i]])
    ensures Opened(PrintMembers(fl, v, m, ks) + ("}" + rest))
  {
    MembersSplit(fl, v, m, ks, rest);
  }

  lemma {:induction false} ArrayBack(fl: Floats, es: seq<Json>, rest: string)
    requires Lawful(fl) && Printable(fl, Arr(es))
    ensures ReadValue(Print(fl, Arr(es)) + rest) == Got(Canon(fl, Arr(es)), rest)
    decreases Arr(es), 1
  {
    hide ReadValue, ReadElems, PrintElems;
    var v := Arr(es);
    var inner := PrintElems(fl, v, es) + ("]" + rest);
    assert Print(fl, v) + rest == "[" + inner;
    assert Canon(fl, v) == Arr(CanonSeq(fl, es));
    if es == [] {
      NoElems(fl, v);
      assert inner == "]" + rest;
      StepEmpty(rest);
    } else {
      ElemsBack(fl, v, es, rest);
      ElemsSplit(fl, v, es, rest);
      PrintStart(fl, es[0], if |es| == 1 then "]" + rest else "," + (PrintElems(fl, v, es[1..]) + ("]" + rest)));
      StepArray(inner);
    }
  }

  lemma NoElems(fl: Floats, v: Json)
    requires Lawful(fl)
    ensures PrintElems(fl, v, []) == "" && CanonSeq(fl, []) == []
  {
  }

  /** A printed value reads back as its canonical self, whatever closes it. */
  lemma {:induction false} ValueBack(fl: Floats, v: Json, rest: string)
    requires Lawful(fl) && Printable(fl, v) && Closes(rest)
    ensures ReadValue(Print(fl, v) + rest) == Got(Canon(fl, v), rest)
    decreases v, 2
  {
    hide ReadValue, PrintElems, PrintMembers, SortedNames, NumberText;
    match v
    case Null => StepWord(v, "null", rest);
    case Bool(b) => StepWord(v, if b then "true" else "false", rest);
    case Str(s) => StringValueBack(s, rest);
    case Int(_) =>
      NumberIsLit(fl, v);
      NumberBack(NumberText(fl, v).value, rest);
    case Flt(_) =>
      NumberIsLit(fl, v);
      NumberBack(NumberText(fl, v).value, rest);
    case Num(_) =>
      NumberIsLit(fl, v);
      NumberBack(NumberText(fl, v).value, rest);
    case Arr(es) => ArrayBack(fl, es, rest);
    case Obj(m) => ObjectBack(fl, m, rest);
  }

  // ---------------------------------------------------------------------
  // Documents.

  /** The parser undoes the printer: what any encodable value prints to is one
      document, and it is the value with its numbers in canonical spelling. */
  lemma {:induction false} ParsePrint(fl: Floats, v: Json)
    requires Lawful(fl) && Printable(fl, v)
    ensures Parse(Print(fl, v)) == Got(Canon(fl, v), "")
  {
    hide ReadValue, Print, Canon;
    ValueBack(fl, v, "");
    assert Print(fl, v) + "" == Print(fl, v);
  }

  /** Encoding is injective up to the spelling of numbers. */
  lemma PrintInjective(fl: Floats, v: Json, w: Json)
    requires Lawful(fl) && Printable(fl, v) && Printable(fl, w)
    requires Print(fl, v) == Print(fl, w)
    ensures Canon(fl, v) == Canon(fl, w)
  {
    hide Print, Canon, Parse;
    ParsePrint(fl, v);
    ParsePrint(fl, w);
  }

  /** A value that is its own canonical form: the numbers are canonical literals. */
  predicate Normal(fl: Floats, v: Json)
    requires Lawful(fl)
  {
    match v
    case Null => true
    case Bool(_) => true
    case Str(_) => true
    case Int(_) => false
    case Flt(_) => false
    case Num(lit) => FormatJSONNumber(fl, lit) == Some(lit)
    case Arr(es) => forall i | 0 <= i < |es| :: Normal(fl, es[i])
    case Obj(m) => forall k | k in m :: Normal(fl, m[k])
  }

  lemma {:induction false} NormalFixed(fl: Floats, v: Json)
    requires Lawful(fl) && Normal(fl, v)
    ensures Printable(fl, v) && Canon(fl, v) == v
  {
    hide FormatJSONNumber;
    match v
    case Null =>
    case Bool(_) =>
    case Str(_) =>
    case Num(_) =>
    case Arr(es) =>
      forall i | 0 <= i < |es| ensures Printable(fl, es[i]) && Canon(fl, es[i]) == es[i] {
        NormalFixed(fl, es[i]);
      }
    case Obj(m) =>
      forall k | k in m ensures Printable(fl, m[k]) && Canon(fl, m[k]) == m[k] {
        NormalFixed(fl, m[k]);
      }
  }

  /** Doubles a value may hold: those the standard library can produce. */
  predicate Representable(fl: Floats, v: Json) {
    match v
    case Flt(f) => IsDouble(fl, f)
    case Arr(es) => forall i | 0 <= i < |es| :: Representable(fl, es[i])
    case Obj(m) => forall k | k in m :: Representable(fl, m[k])
    case _ => true
  }

  lemma CanonNumber(fl: Floats, v: Json)
    requires Lawful(fl) && (v.Int? || v.Flt? || v.Num?) && NumberText(fl, v).Some? && Representable(fl, v)
    ensures Normal(fl, Num(NumberText(fl, v).value))
  {
    NumberIsLit(fl, v);
    if v.Flt? {
      DoubleText(fl, v.f);
    }
  }

  lemma {:induction false} CanonNormal(fl: Floats, v: Json)
    requires Lawful(fl) && Printable(fl, v) && Representable(fl, v)
    ensures Normal(fl, Canon(fl, v))
  {
    hide NumberText, Lawful;
    match v
    case Null =>
    case Bool(_) =>
    case Str(_) =>
    case Int(_) => CanonNumber(fl, v);
    case Flt(_) => CanonNumber(fl, v);
    case Num(_) => CanonNumber(fl, v);
    case Arr(es) =>
      forall i | 0 <= i < |es| ensures Normal(fl, Canon(fl, es[i])) {
        CanonNormal(fl, es[i]);
      }
    case Obj(m) =>
      forall k | k in m ensures Normal(fl, Canon(fl, m[k])) {
        CanonNormal(fl, m[k]);
      }
  }

  /** Normal values and their texts correspond one to one. */
  lemma NormalRoundTrip(fl: Floats, v: Json)
    requires Lawful(fl) && Normal(fl, v)
    ensures Printable(fl, v) && Parse(Print(fl, v)) == Got(v, "")
  {
    NormalFixed(fl, v);
    ParsePrint(fl, v);
  }

  lemma {:induction false} PrintElemsCanon(fl: Floats, v: Json, w: Json, es: seq<Json>)
    requires Lawful(fl) && forall i | 0 <= i < |es| :: es[i] < v && Printable(fl, es[i]) && Stable(fl, es[i])
    requires forall i | 0 <= i < |es| :: CanonSeq(fl, es)[i] < w && Printable(fl, CanonSeq(fl, es)[i])
    ensures PrintElems(fl, w, CanonSeq(fl, es)) == PrintElems(fl, v, es)
    decreases |es|
  {
    hide Print, Canon, Printable, Lawful;
    if es != [] {
      var cs := CanonSeq(fl, es);
      assert cs[1..] == CanonSeq(fl, es[1..]);
      PrintElemsCanon(fl, v, w, es[1..]);
    }
  }

  /** Printing a value's canonical form prints the same text. */
  ghost predicate Stable(fl: Floats, v: Json)
    requires Lawful(fl) && Printable(fl, v)
  {
    Printable(fl, Canon(fl, v)) && Print(fl, Canon(fl, v)) == Print(fl, v)
  }

  lemma {:induction false} PrintMembersCanon(fl: Floats, v: Json, w: Json, m: map<string, Json>, n: map<string, Json>, ks: seq<string>)
    requires Lawful(fl)
    requires forall i | 0 <= i < |ks| :: ks[i] in m && m[ks[i]] < v && Printable(fl, m[ks[i]]) && Stable(fl, m[ks[i]])
    requires forall i | 0 <= i < |ks| :: ks[i] in n && n[ks[i]] < w && Printable(fl, n[ks[i]])
                                        && n[ks[i]] == Canon(fl, m[ks[i]])
    ensures PrintMembers(fl, w, n, ks) == PrintMembers(fl, v, m, ks)
    decreases |ks|
  {
    hide Print, Canon, Printable, Lawful, Quoted;
    if ks != [] {
      PrintMembersCanon(fl, v, w, m, n, ks[1..]);
    }
  }

  lemma {:induction false} CanonStable(fl: Floats, v: Json)
    requires Lawful(fl) && Printable(fl, v) && Representable(fl, v)
    ensures Stable(fl, v)
  {
    hide NumberText, Lawful, Print, Canon, Stable;
    match v
    case Null => WordKept(fl, v);
    case Bool(_) => WordKept(fl, v);
    case Str(_) => WordKept(fl, v);
    case Int(_) => NumberKept(fl, v);
    case Flt(_) => NumberKept(fl, v);
    case Num(_) => NumberKept(fl, v);
    case Arr(es) =>
      forall i | 0 <= i < |es| ensures Printable(fl, es[i]) && Stable(fl, es[i]) {
        CanonStable(fl, es[i]);
      }
      ArrayKept(fl, es);
    case Obj(m) =>
      forall k | k in m ensures Printable(fl, m[k]) && Stable(fl, m[k]) {
        CanonStable(fl, m[k]);
      }
      ObjectKept(fl, m);
  }

  lemma WordKept(fl: Floats, v: Json)
    requires Lawful(fl) && Printable(fl, v) && (v.Null? || v.Bool? || v.Str?)
    ensures Stable(fl, v)
  {
  }

  lemma ArrayKept(fl: Floats, es: seq<Json>)
    requires Lawful(fl) && Printable(fl, Arr(es))
    requires forall i | 0 <= i < |es| :: Printable(fl, es[i]) && Stable(fl, es[i])
    ensures Stable(fl, Arr(es))
  {
    hide NumberText, Lawful, PrintElems;
    var v := Arr(es);
    var w := Canon(fl, v);
    assert w.elems == CanonSeq(fl, es);
    assert forall i | 0 <= i < |w.elems| :: w.elems[i] == Canon(fl, es[i]);
    PrintElemsCanon(fl, v, w, es);
  }

  lemma CanonMember(fl: Floats, m: map<string, Json>, k: string)
    requires Lawful(fl) && Printable(fl, Obj(m)) && k in m
    ensures Printable(fl, m[k]) && Canon(fl, Obj(m)).Obj?
    ensures k in Canon(fl, Obj(m)).members && Canon(fl, Obj(m)).members[k] == Canon(fl, m[k])
  {
  }

  lemma MembersPrintable(fl: Floats, m: map<string, Json>)
    requires Lawful(fl) && forall k | k in m :: Printable(fl, m[k])
    ensures Printable(fl, Obj(m))
  {
  }

  lemma {:induction false} ObjectKept(fl: Floats, m: map<string, Json>)
    requires Lawful(fl) && Printable(fl, Obj(m))
    requires forall k | k in m :: Printable(fl, m[k]) && Stable(fl, m[k])
    ensures Stable(fl, Obj(m))
  {
    var v := Obj(m);
    var w := Canon(fl, v);
    assert w.Obj? && w.members.Keys == m.Keys;
    hide NumberText, Lawful, PrintMembers, Canon, Printable, SortedNames;
    var ks := SortedNames(m.Keys);
    forall k | k in m ensures Printable(fl, m[k]) && w.members[k] == Canon(fl, m[k]) && Printable(fl, w.members[k]) {
      CanonMember(fl, m, k);
    }
    MembersPrintable(fl, w.members);
    assert forall i | 0 <= i < |ks| :: ks[i] in ks;
    PrintMembersCanon(fl, v, w, m, w.members, SortedNames(m.Keys));
  }

  lemma NumberKept(fl: Floats, v: Json)
    requires Lawful(fl) && (v.Int? || v.Flt? || v.Num?) && Printable(fl, v) && Representable(fl, v)
    ensures Stable(fl, v)
  {
    hide Lawful, FormatInt, FormatNumber, FormatJSONNumber;
    CanonNumber(fl, v);
  }
}
