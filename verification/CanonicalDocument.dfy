/** Canonicalizing a document: the encoder accepts its own output unchanged, and
    the raw surrogate scan it relies on is exact on everything the parser takes. */
module CanonicalDocument {
  import opened Prelude
  import opened JsonValue
  import opened CanonicalNumber
  import opened CanonicalString
  import opened CanonicalSurrogates
  import opened CanonicalJson

  // ---------------------------------------------------------------------
  // Printed text holds no surrogate escape.

  predicate Plainly(s: string) {
    forall i | 0 <= i < |s| :: s[i] != '\\'
  }

  function EscapeElem(c: char): Elem {
    if c == '"' then Pair('"')
    else if c == '\\' then Pair('\\')
    else if c == '\U{08}' then Pair('b')
    else if c == '\t' then Pair('t')
    else if c == '\n' then Pair('n')
    else if c == '\U{0C}' then Pair('f')
    else if c == '\r' then Pair('r')
    else if c < ' ' then Uni(['0', '0', HexDigit(c as int / 16), HexDigit(c as int % 16)])
    else Plain(c)
  }

  lemma EscapeIsElem(c: char)
    ensures ElemForm(EscapeElem(c)) && ElemText(EscapeElem(c)) == Escape(c)
    ensures !HighElem(EscapeElem(c)) && !LowElem(EscapeElem(c))
  {
    if EscapeElem(c).Uni? {
      HexBack(c as int / 16);
      HexBack(c as int % 16);
    }
  }

  lemma {:induction false} ScanEscaped(s: string, rest: string)
    ensures Scan(Escaped(s) + rest) == Scan(rest)
    decreases |s|
  {
    hide Scan, Escape, ElemForm, HighElem, LowElem;
    if s == "" {
      assert Escaped(s) + rest == rest;
    } else {
      assert Escaped(s) + rest == Escape(s[0]) + (Escaped(s[1..]) + rest);
      EscapeIsElem(s[0]);
      ScanElem(EscapeElem(s[0]), Escaped(s[1..]) + rest);
      ScanEscaped(s[1..], rest);
    }
  }

  lemma ScanQuoted(s: string, rest: string)
    ensures Scan(Quoted(s) + rest) == Scan(rest)
  {
    hide Scan, Escaped;
    var tail := "\"" + rest;
    assert Quoted(s) + rest == "\"" + (Escaped(s) + tail);
    ScanPlain("\"", Escaped(s) + tail);
    ScanEscaped(s, tail);
    ScanPlain("\"", rest);
  }

  lemma LitPlain(l: NumLit)
    requires LitForm(l)
    ensures Plainly(LitText(l))
  {
    var x := ExpText(l.exp);
    assert Plainly(x);
    assert Plainly(FracText(l.frac));
    assert Plainly(BodyText(l));
  }

  lemma NumberPlain(fl: Floats, v: Json)
    requires Lawful(fl) && (v.Int? || v.Flt? || v.Num?) && NumberText(fl, v).Some?
    ensures Plainly(NumberText(fl, v).value)
  {
    NumberIsLit(fl, v);
    LitPlain(ParseLit(NumberText(fl, v).value).value);
  }

  lemma {:induction false} ScanPrint(fl: Floats, v: Json, rest: string)
    requires Lawful(fl) && Printable(fl, v)
    ensures Scan(Print(fl, v) + rest) == Scan(rest)
    decreases v, 1
  {
    hide Scan, Lawful, NumberText, PrintElems, PrintMembers, Quoted, SortedNames;
    match v
    case Null => ScanPlain("null", rest);
    case Bool(b) => ScanPlain(if b then "true" else "false", rest);
    case Str(s) => ScanQuoted(s, rest);
    case Int(_) => NumberPlain(fl, v); ScanPlain(NumberText(fl, v).value, rest);
    case Flt(_) => NumberPlain(fl, v); ScanPlain(NumberText(fl, v).value, rest);
    case Num(_) => NumberPlain(fl, v); ScanPlain(NumberText(fl, v).value, rest);
    case Arr(es) =>
      var t := PrintElems(fl, v, es);
      assert Print(fl, v) + rest == "[" + (t + ("]" + rest));
      ScanPlain("[", t + ("]" + rest));
      ScanList(fl, v, es, "]" + rest);
      ScanPlain("]", rest);
    case Obj(m) =>
      var t := PrintMembers(fl, v, m, SortedNames(m.Keys));
      assert Print(fl, v) + rest == "{" + (t + ("}" + rest));
      ScanPlain("{", t + ("}" + rest));
      ScanMembers(fl, v, m, SortedNames(m.Keys), "}" + rest);
      ScanPlain("}", rest);
  }

  lemma {:induction false} ScanList(fl: Floats, v: Json, es: seq<Json>, rest: string)
    requires Lawful(fl) && forall i | 0 <= i < |es| :: es[i] < v && Printable(fl, es[i])
    ensures Scan(PrintElems(fl, v, es) + rest) == Scan(rest)
    decreases v, 0, |es|
  {
    hide Scan, Lawful, Print, Printable;
    if es == [] {
      assert "" + rest == rest;
    } else {
      var more := if |es| == 1 then rest else "," + (PrintElems(fl, v, es[1..]) + rest);
      assert PrintElems(fl, v, es) + rest == Print(fl, es[0]) + more;
      ScanPrint(fl, es[0], more);
      if |es| > 1 {
        ScanPlain(",", PrintElems(fl, v, es[1..]) + rest);
        ScanList(fl, v, es[1..], rest);
      }
    }
  }

  lemma {:induction false} ScanMembers(fl: Floats, v: Json, m: map<string, Json>, ks: seq<string>, rest: string)
    requires Lawful(fl) && forall i | 0 <= i < |ks| :: ks[i] in m && m[ks[i]] < v && Printable(fl, m[ks[i]])
    ensures Scan(PrintMembers(fl, v, m, ks) + rest) == Scan(rest)
    decreases v, 0, |ks|
  {
    hide Scan, Lawful, Print, Printable, Quoted;
    if ks == [] {
      assert "" + rest == rest;
    } else {
      var x := m[ks[0]];
      var more := if |ks| == 1 then rest else "," + (PrintMembers(fl, v, m, ks[1..]) + rest);
      assert PrintMembers(fl, v, m, ks) + rest == Quoted(ks[0]) + (":" + (Print(fl, x) + more));
      ScanQuoted(ks[0], ":" + (Print(fl, x) + more));
      ScanPlain(":", Print(fl, x) + more);
      ScanPrint(fl, x, more);
      if |ks| > 1 {
        ScanPlain(",", PrintMembers(fl, v, m, ks[1..]) + rest);
        ScanMembers(fl, v, m, ks[1..], rest);
      }
    }
  }

  /** Numbers from a document are literals, never doubles. */
  lemma {:induction false} ReadHasNoDoubles(fl: Floats, s: string)
    ensures ReadValue(s).Got? ==> Representable(fl, ReadValue(s).value)
    decreases |s|, 1
  {
    hide ReadLit, ReadChars, IsDouble;
    var t := SkipSpace(s);
    if t != "" && t[0] == '{' {
      MembersNoDoubles(fl, t[1..], map[]);
    } else if t != "" && t[0] == '[' {
      ElemsNoDoubles(fl, t[1..]);
    }
  }

  lemma {:induction false} ElemsNoDoubles(fl: Floats, s: string)
    ensures ReadElems(s).Got? ==> Representable(fl, Arr(ReadElems(s).value))
    decreases |s|, 2
  {
    hide ReadValue, IsDouble;
    ReadHasNoDoubles(fl, s);
    if ReadValue(s).Got? {
      var t := SkipSpace(ReadValue(s).rest);
      if t != "" && t[0] == ',' {
        ElemsNoDoubles(fl, t[1..]);
      }
    }
  }

  lemma {:induction false} MembersNoDoubles(fl: Floats, s: string, seen: map<string, Json>)
    requires Representable(fl, Obj(seen))
    ensures ReadMembers(s, seen).Got? ==> Representable(fl, Obj(ReadMembers(s, seen).value))
    decreases |s|, 0
  {
    hide ReadValue, ReadChars, IsDouble;
    var t := SkipSpace(s);
    if t != "" && t[0] == '"' && ReadChars(t[1..]).Some? {
      var k := ReadChars(t[1..]).value;
      var c := SkipSpace(k.1);
      if c != "" && c[0] == ':' {
        ReadHasNoDoubles(fl, c[1..]);
        if ReadValue(c[1..]).Got? {
          var u := SkipSpace(ReadValue(c[1..]).rest);
          if u != "" && u[0] == ',' {
            MembersNoDoubles(fl, u[1..], seen[k.0 := ReadValue(c[1..]).value]);
          }
        }
      }
    }
  }

  /** The encoder accepts what it produced and leaves it alone. */
  lemma EncodeIdempotent(fl: Floats, data: string)
    requires Lawful(fl) && EncodeJSON(fl, data).Got?
    ensures EncodeJSON(fl, EncodeJSON(fl, data).value) == EncodeJSON(fl, data)
  {
    hide ReadValue, Print, Canon, Scan, Printable, Lawful, Representable;
    var v := Parse(data).value;
    ReadHasNoDoubles(fl, data);
    var t := Print(fl, v);
    ParsePrint(fl, v);
    ScanPrint(fl, v, "");
    assert t + "" == t;
    ScanNothing();
    CanonStable(fl, v);
  }

  // ---------------------------------------------------------------------
  // What the parser accepts is a lexical text.

  lemma {:induction false} TextConcat(ps: seq<Piece>, qs: seq<Piece>)
    ensures Text(ps + qs) == Text(ps) + Text(qs)
    decreases |ps|
  {
    if ps == [] {
      assert ps + qs == qs;
    } else {
      assert (ps + qs)[1..] == ps[1..] + qs;
      TextConcat(ps[1..], qs);
    }
  }

  /** s is a lexical text followed by rest. */
  ghost predicate Lexes(s: string, rest: string) {
    exists ps :: Formed(ps) && s == Text(ps) + rest
  }

  lemma LexesNothing(s: string)
    ensures Lexes(s, s)
  {
    assert s == Text([]) + s && Formed([]);
  }

  lemma LexesThen(s: string, mid: string, rest: string)
    requires Lexes(s, mid) && Lexes(mid, rest)
    ensures Lexes(s, rest)
  {
    hide Text, PieceForm;
    var ps :| Formed(ps) && s == Text(ps) + mid;
    var qs :| Formed(qs) && mid == Text(qs) + rest;
    TextConcat(ps, qs);
    assert Formed(ps + qs) && s == Text(ps + qs) + rest;
  }

  lemma LexesOne(c: char, rest: string)
    requires c != '"' && c != '\\'
    ensures Lexes([c] + rest, rest)
  {
    var ps := [Outside(c)];
    assert Text(ps) == PieceText(ps[0]) + Text([]);
    assert Formed(ps) && [c] + rest == Text(ps) + rest;
  }

  lemma {:induction false} LexesPlain(w: string, rest: string)
    requires forall i | 0 <= i < |w| :: w[i] != '"' && w[i] != '\\'
    ensures Lexes(w + rest, rest)
    decreases |w|
  {
    hide Lexes;
    if w == "" {
      assert w + rest == rest;
      LexesNothing(rest);
    } else {
      LexesPlain(w[1..], rest);
      LexesOne(w[0], w[1..] + rest);
      assert w + rest == [w[0]] + (w[1..] + rest);
      LexesThen(w + rest, w[1..] + rest, rest);
    }
  }

  /** One character that is neither a quote nor a backslash. */
  lemma LexesChar(s: string)
    requires s != "" && s[0] != '"' && s[0] != '\\'
    ensures Lexes(s, s[1..])
  {
    LexesPlain([s[0]], s[1..]);
    assert s == [s[0]] + s[1..];
  }

  lemma {:induction false} LexesSpace(s: string)
    ensures Lexes(s, SkipSpace(s))
    decreases |s|
  {
    if s != "" && IsSpace(s[0]) {
      LexesChar(s);
      LexesSpace(s[1..]);
      LexesThen(s, s[1..], SkipSpace(s[1..]));
    } else {
      LexesNothing(s);
    }
  }

  lemma UniForm(s: string) returns (e: Elem)
    requires UnicodeAt(s).Some?
    ensures ElemForm(e) && s == ElemText(e) + s[6..]
  {
    e := Uni(s[2..6]);
    assert s == ElemText(e) + s[6..];
  }

  lemma ElemsOne(e: Elem)
    ensures ElemsText([e]) == ElemText(e)
  {
    assert ElemsText([e]) == ElemText(e) + ElemsText([]);
  }

  lemma ElemLexes(s: string) returns (es: seq<Elem>)
    requires ReadElem(s).Some?
    ensures PieceForm(Literal(es)) && s == ElemsText(es) + ReadElem(s).value.1
  {
    if s[0] != '\\' {
      es := [Plain(s[0])];
      ElemsOne(es[0]);
    } else if |s| >= 2 && Short(s[1]).Some? {
      es := [Pair(s[1])];
      ElemsOne(es[0]);
    } else {
      var e := UniForm(s);
      ElemsOne(e);
      var u := UnicodeAt(s).value;
      if High(u) && UnicodeAt(s[6..]).Some? && Low(UnicodeAt(s[6..]).value) {
        var f := UniForm(s[6..]);
        ElemsOne(f);
        es := [e, f];
        assert es[1..] == [f];
        assert s == ElemText(e) + (ElemText(f) + s[12..]);
      } else {
        es := [e];
      }
    }
  }

  lemma {:induction false} ElemsConcat(a: seq<Elem>, b: seq<Elem>)
    ensures ElemsText(a + b) == ElemsText(a) + ElemsText(b)
    decreases |a|
  {
    if a == [] {
      assert a + b == b;
    } else {
      assert (a + b)[1..] == a[1..] + b;
      ElemsConcat(a[1..], b);
    }
  }

  lemma {:induction false} CharsLex(s: string) returns (es: seq<Elem>)
    requires ReadChars(s).Some?
    ensures PieceForm(Literal(es)) && s == ElemsText(es) + ("\"" + ReadChars(s).value.1)
    decreases |s|
  {
    hide ReadElem, PieceForm, ElemsText;
    if s[0] == '"' {
      es := [];
      NoElemsForm();
    } else {
      var a := ElemLexes(s);
      var b := CharsLex(ReadElem(s).value.1);
      ElemsConcat(a, b);
      FormsConcat(a, b);
      es := a + b;
    }
  }

  lemma NoElemsForm()
    ensures PieceForm(Literal([])) && ElemsText([]) == ""
  {
  }

  lemma FormsConcat(a: seq<Elem>, b: seq<Elem>)
    requires PieceForm(Literal(a)) && PieceForm(Literal(b))
    ensures PieceForm(Literal(a + b))
  {
    hide ElemForm;
  }

  lemma LexesString(s: string)
    requires s != "" && s[0] == '"' && ReadChars(s[1..]).Some?
    ensures Lexes(s, ReadChars(s[1..]).value.1)
  {
    hide ReadChars;
    var es := CharsLex(s[1..]);
    var rest := ReadChars(s[1..]).value.1;
    var ps := [Literal(es)];
    assert Text(ps) == PieceText(ps[0]) + Text([]);
    assert s == Text(ps) + rest;
    assert Formed(ps);
  }

  lemma LitUnquoted(l: NumLit)
    requires LitForm(l)
    ensures forall i | 0 <= i < |LitText(l)| :: LitText(l)[i] != '"' && LitText(l)[i] != '\\'
  {
    var x := ExpText(l.exp);
    assert forall i | 0 <= i < |x| :: x[i] != '"' && x[i] != '\\';
    var f := FracText(l.frac);
    assert forall i | 0 <= i < |f| :: f[i] != '"' && f[i] != '\\';
    var b := BodyText(l);
    assert forall i | 0 <= i < |b| :: b[i] != '"' && b[i] != '\\';
  }

  lemma {:induction false} ReadLexes(s: string)
    ensures ReadValue(s).Got? ==> Lexes(s, ReadValue(s).rest)
    decreases |s|, 1
  {
    hide ReadLit, ReadChars, ReadElems, ReadMembers, Lexes;
    var t := SkipSpace(s);
    LexesSpace(s);
    if ReadValue(s).Got? {
      var rest := ReadValue(s).rest;
      assert Lexes(t, rest) by {
        if t[0] == '{' || t[0] == '[' {
          BracketLexes(s, t);
        } else if t[0] == '"' {
          LexesString(t);
        } else {
          ScalarLexes(s, t);
        }
      }
      LexesThen(s, t, rest);
    }
  }

  lemma ScalarLexes(s: string, t: string)
    requires t == SkipSpace(s) && t != "" && t[0] != '{' && t[0] != '[' && t[0] != '"' && ReadValue(s).Got?
    ensures Lexes(t, ReadValue(s).rest)
  {
    hide ReadLit, ReadChars, ReadElems, ReadMembers, Lexes;
    if "null" <= t {
      LexesPlain("null", t[4..]);
      assert t == "null" + t[4..];
    } else if "true" <= t {
      LexesPlain("true", t[4..]);
      assert t == "true" + t[4..];
    } else if "false" <= t {
      LexesPlain("false", t[5..]);
      assert t == "false" + t[5..];
    } else {
      var r := ReadLit(t).value;
      assert t == LitText(r.0) + r.1;
      LitUnquoted(r.0);
      LexesPlain(LitText(r.0), r.1);
    }
  }

  lemma {:induction false} BracketLexes(s: string, t: string)
    requires t == SkipSpace(s) && t != "" && (t[0] == '{' || t[0] == '[') && ReadValue(s).Got?
    ensures Lexes(t, ReadValue(s).rest)
    decreases |t|, 0
  {
    hide ReadLit, ReadChars, ReadElems, ReadMembers, Lexes;
    LexesChar(t);
    var u := SkipSpace(t[1..]);
    if u != "" && (if t[0] == '{' then u[0] == '}' else u[0] == ']') {
      LexesSpace(t[1..]);
      LexesChar(u);
      LexesThen(t[1..], u, u[1..]);
      LexesThen(t, t[1..], u[1..]);
    } else if t[0] == '{' {
      MembersLex(t[1..], map[]);
      LexesThen(t, t[1..], ReadMembers(t[1..], map[]).rest);
    } else {
      ElemsLex(t[1..]);
      LexesThen(t, t[1..], ReadElems(t[1..]).rest);
    }
  }

  lemma {:induction false} ElemsLex(s: string)
    ensures ReadElems(s).Got? ==> Lexes(s, ReadElems(s).rest)
    decreases |s|, 2
  {
    hide ReadValue, Lexes;
    ReadLexes(s);
    if ReadElems(s).Got? {
      var r := ReadValue(s).rest;
      var t := SkipSpace(r);
      LexesSpace(r);
      LexesChar(t);
      LexesThen(s, r, t);
      LexesThen(s, t, t[1..]);
      if t[0] == ',' {
        ElemsLex(t[1..]);
        LexesThen(s, t[1..], ReadElems(t[1..]).rest);
      }
    }
  }

  /** From the key of a member to what follows its colon. */
  lemma KeyLexes(s: string, t: string, c: string)
    requires t == SkipSpace(s) && t != "" && t[0] == '"' && ReadChars(t[1..]).Some?
    requires c == SkipSpace(ReadChars(t[1..]).value.1) && c != "" && c[0] == ':'
    ensures Lexes(s, c[1..])
  {
    hide ReadChars, Lexes;
    var k := ReadChars(t[1..]).value.1;
    LexesSpace(s);
    LexesString(t);
    LexesSpace(k);
    LexesChar(c);
    LexesThen(s, t, k);
    LexesThen(s, k, c);
    LexesThen(s, c, c[1..]);
  }

  lemma {:induction false} MembersLex(s: string, seen: map<string, Json>)
    ensures ReadMembers(s, seen).Got? ==> Lexes(s, ReadMembers(s, seen).rest)
    decreases |s|, 0
  {
    hide ReadValue, ReadChars, Lexes;
    if ReadMembers(s, seen).Got? {
      var t := SkipSpace(s);
      var k := ReadChars(t[1..]).value;
      var c := SkipSpace(k.1);
      KeyLexes(s, t, c);
      ReadLexes(c[1..]);
      var r := ReadValue(c[1..]).rest;
      var u := SkipSpace(r);
      LexesSpace(r);
      LexesChar(u);
      LexesThen(s, c[1..], r);
      LexesThen(s, r, u);
      LexesThen(s, u, u[1..]);
      if u[0] == ',' {
        var seen' := seen[k.0 := ReadValue(c[1..]).value];
        MembersLex(u[1..], seen');
        LexesThen(s, u[1..], ReadMembers(u[1..], seen').rest);
      }
    }
  }

  /** Every document the parser takes is a lexical text, and the encoder refuses
      it for a surrogate exactly when some string literal of it holds an unpaired
      surrogate escape. */
  lemma SurrogatesExact(fl: Floats, data: string) returns (ps: seq<Piece>)
    requires Lawful(fl) && Parse(data).Got?
    ensures Formed(ps) && data == Text(ps)
    ensures EncodeJSON(fl, data) == Refused(LoneSurrogate) <==> !AllPaired(ps)
  {
    hide ReadValue, Scan, Lawful, Printable, Print, AllPaired;
    ReadLexes(data);
    var r := ReadValue(data).rest;
    LexesSpace(r);
    LexesThen(data, r, "");
    ps :| Formed(ps) && data == Text(ps) + "";
    assert Text(ps) + "" == Text(ps);
    ScanExact(ps);
  }
}
