/** The encoder and the parser as they run: appending to one text, consuming
    another, with loops over elements and members. */
module CanonicalWalk {
  import opened Prelude
  import opened JsonValue
  import opened CanonicalNumber
  import opened CanonicalString
  import opened CanonicalSurrogates
  import opened CanonicalJson

  // ---------------------------------------------------------------------
  // Sorting names.

  /** Puts k in its place. */
  method Insert(ks: seq<string>, k: string) returns (out: seq<string>)
    requires SortedKeys(ks) && k !in ks
    ensures SortedKeys(out) && forall x :: x in out <==> x in ks || x == k
  {
    hide Less;
    var i := 0;
    while i < |ks|
      invariant 0 <= i <= |ks|
      invariant forall j | 0 <= j < i :: Less(ks[j], k)
    {
      var before := LessUTF16(k, ks[i]);
      if before {
        break;
      }
      LessTotal(k, ks[i]);
      i := i + 1;
    }
    out := ks[..i] + [k] + ks[i..];
    InsertSorted(ks, k, i);
    assert ks == ks[..i] + ks[i..];
  }

  lemma InsertSorted(ks: seq<string>, k: string, i: nat)
    requires SortedKeys(ks) && i <= |ks|
    requires forall j | 0 <= j < i :: Less(ks[j], k)
    requires i < |ks| ==> Less(k, ks[i])
    ensures SortedKeys(ks[..i] + [k] + ks[i..])
  {
    hide Less;
    var out := ks[..i] + [k] + ks[i..];
    forall a, b | 0 <= a < b < |out| ensures Less(out[a], out[b]) {
      if a == i && b > i + 1 {
        assert Less(ks[i], ks[b - 1]);
        LessTransitive(k, ks[i], ks[b - 1]);
      }
    }
  }

  /** The names of a map, sorted: the order in which the map yields them is
      arbitrary and does not show. */
  method NamesOf(m: map<string, Json>) returns (ks: seq<string>)
    ensures ks == SortedNames(m.Keys)
  {
    hide Less;
    ks := [];
    var todo := m.Keys;
    while todo != {}
      invariant todo <= m.Keys && SortedKeys(ks)
      invariant forall k :: k in ks <==> k in m && k !in todo
      decreases |todo|
    {
      assert (forall e :: e !in todo) ==> todo == {};
      var k :| k in todo;
      ks := Insert(ks, k);
      todo := todo - {k};
    }
    SortUnique(ks, SortedNames(m.Keys));
  }

  // ---------------------------------------------------------------------
  // Encoding.

  /** What is still to be written of an array once i elements have been. */
  ghost function ElemsFrom(fl: Floats, v: Json, es: seq<Json>, i: nat): string
    requires i <= |es| && Lawful(fl) && forall i | 0 <= i < |es| :: es[i] < v && Printable(fl, es[i])
  {
    if i == 0 then PrintElems(fl, v, es)
    else if i == |es| then ""
    else "," + PrintElems(fl, v, es[i..])
  }

  lemma ElemsFromStep(fl: Floats, v: Json, es: seq<Json>, i: nat)
    requires i < |es| && Lawful(fl) && forall i | 0 <= i < |es| :: es[i] < v && Printable(fl, es[i])
    ensures ElemsFrom(fl, v, es, i) == (if i > 0 then "," else "") + (Print(fl, es[i]) + ElemsFrom(fl, v, es, i + 1))
  {
    hide Print, Lawful, Printable;
    assert es[i..][0] == es[i] && es[i..][1..] == es[i + 1..];
    assert es[0..] == es;
    assert "" + PrintElems(fl, v, es) == PrintElems(fl, v, es);
  }

  ghost function MembersFrom(fl: Floats, v: Json, m: map<string, Json>, ks: seq<string>, i: nat): string
    requires i <= |ks| && Lawful(fl)
    requires forall i | 0 <= i < |ks| :: ks[i] in m && m[ks[i]] < v && Printable(fl, m[ks[i]])
  {
    if i == 0 then PrintMembers(fl, v, m, ks)
    else if i == |ks| then ""
    else "," + PrintMembers(fl, v, m, ks[i..])
  }

  lemma MembersFromStep(fl: Floats, v: Json, m: map<string, Json>, ks: seq<string>, i: nat)
    requires i < |ks| && Lawful(fl)
    requires forall i | 0 <= i < |ks| :: ks[i] in m && m[ks[i]] < v && Printable(fl, m[ks[i]])
    ensures MembersFrom(fl, v, m, ks, i) ==
      (if i > 0 then "," else "") + (Quoted(ks[i]) + (":" + (Print(fl, m[ks[i]]) + MembersFrom(fl, v, m, ks, i + 1))))
  {
    hide Print, Lawful, Printable, Quoted;
    assert ks[i..][0] == ks[i] && ks[i..][1..] == ks[i + 1..];
    assert ks[0..] == ks;
    assert "" + PrintMembers(fl, v, m, ks) == PrintMembers(fl, v, m, ks);
  }

  /** Appends v's canonical text to b0, or refuses v. */
  method EncodeValue(fl: Floats, b0: string, v: Json) returns (ok: bool, b: string)
    requires Lawful(fl)
    ensures ok == Printable(fl, v)
    ensures ok ==> b == b0 + Print(fl, v)
    decreases v, 1
  {
    hide NumberText, Lawful, PrintElems, PrintMembers, SortedNames, Quoted;
    match v
    case Null => return true, b0 + "null";
    case Bool(t) =>
      if t {
        return true, b0 + "true";
      }
      return true, b0 + "false";
    case Str(s) =>
      b := WriteString(b0, s);
      return true, b;
    case Int(_) => ok, b := EncodeNumber(fl, b0, v);
    case Flt(_) => ok, b := EncodeNumber(fl, b0, v);
    case Num(_) => ok, b := EncodeNumber(fl, b0, v);
    case Arr(es) => ok, b := EncodeArray(fl, b0, es);
    case Obj(m) => ok, b := EncodeObject(fl, b0, m);
  }

  method EncodeNumber(fl: Floats, b0: string, v: Json) returns (ok: bool, b: string)
    requires Lawful(fl) && (v.Int? || v.Flt? || v.Num?)
    ensures ok == Printable(fl, v)
    ensures ok ==> b == b0 + Print(fl, v)
  {
    var s := NumberText(fl, v);
    if s.None? {
      return false, b0;
    }
    return true, b0 + s.value;
  }

  method EncodeArray(fl: Floats, b0: string, es: seq<Json>) returns (ok: bool, b: string)
    requires Lawful(fl)
    ensures ok == Printable(fl, Arr(es))
    ensures ok ==> b == b0 + Print(fl, Arr(es))
    decreases Arr(es), 0
  {
    hide Lawful, PrintElems, ElemsFrom, Print;
    ghost var v := Arr(es);
    b := b0 + "[";
    if Printable(fl, v) {
      EmptyElems(fl, v, es);
      ArrayText(fl, es, b0);
    }
    for i := 0 to |es|
      invariant forall j | 0 <= j < i :: Printable(fl, es[j])
      invariant Printable(fl, v) ==> b + (ElemsFrom(fl, v, es, i) + "]") == b0 + Print(fl, v)
    {
      ghost var before := b;
      if i > 0 {
        b := b + ",";
      }
      ok, b := EncodeValue(fl, b, es[i]);
      if !ok {
        return false, b;
      }
      if Printable(fl, v) {
        ElemsFromStep(fl, v, es, i);
        Appended(before, if i > 0 then "," else "", Print(fl, es[i]), ElemsFrom(fl, v, es, i + 1), "]", b);
      }
    }
    EmptyElems(fl, v, es);
    assert "" + "]" == "]";
    b := b + "]";
    return true, b;
  }

  lemma Appended(before: string, comma: string, item: string, more: string, close: string, b: string)
    requires b == (if comma == "" then before else before + comma) + item
    ensures before + (comma + (item + more) + close) == b + (more + close)
  {
  }

  lemma ArrayText(fl: Floats, es: seq<Json>, b0: string)
    requires Lawful(fl) && Printable(fl, Arr(es))
    ensures b0 + Print(fl, Arr(es)) == b0 + "[" + (PrintElems(fl, Arr(es), es) + "]")
  {
    hide PrintElems;
  }

  lemma ObjectText(fl: Floats, m: map<string, Json>, b0: string)
    requires Lawful(fl) && Printable(fl, Obj(m))
    ensures b0 + Print(fl, Obj(m)) == b0 + "{" + (PrintMembers(fl, Obj(m), m, SortedNames(m.Keys)) + "}")
  {
    hide PrintMembers;
  }

  lemma EmptyElems(fl: Floats, v: Json, es: seq<Json>)
    requires Lawful(fl) && forall i | 0 <= i < |es| :: es[i] < v && Printable(fl, es[i])
    ensures ElemsFrom(fl, v, es, |es|) == "" && ElemsFrom(fl, v, es, 0) == PrintElems(fl, v, es)
  {
  }

  method EncodeObject(fl: Floats, b0: string, m: map<string, Json>) returns (ok: bool, b: string)
    requires Lawful(fl)
    ensures ok == Printable(fl, Obj(m))
    ensures ok ==> b == b0 + Print(fl, Obj(m))
    decreases Obj(m), 0
  {
    hide Lawful, PrintMembers, MembersFrom, SortedNames, Quoted, Print;
    ghost var v := Obj(m);
    var ks := NamesOf(m);
    assert forall i | 0 <= i < |ks| :: ks[i] in m;
    b := b0 + "{";
    if Printable(fl, v) {
      EmptyMembers(fl, v, m, ks);
      ObjectText(fl, m, b0);
    }
    for i := 0 to |ks|
      invariant forall j | 0 <= j < i :: Printable(fl, m[ks[j]])
      invariant Printable(fl, v) ==> b + (MembersFrom(fl, v, m, ks, i) + "}") == b0 + Print(fl, v)
    {
      ghost var before := b;
      if i > 0 {
        b := b + ",";
      }
      b := WriteString(b, ks[i]);
      b := b + ":";
      ok, b := EncodeValue(fl, b, m[ks[i]]);
      if !ok {
        return false, b;
      }
      if Printable(fl, v) {
        MembersFromStep(fl, v, m, ks, i);
        MemberAppended(before, if i > 0 then "," else "", Quoted(ks[i]), Print(fl, m[ks[i]]), MembersFrom(fl, v, m, ks, i + 1), b);
      }
    }
    forall k | k in m ensures Printable(fl, m[k]) {
      assert k in ks;
    }
    EmptyMembers(fl, v, m, ks);
    assert "" + "}" == "}";
    b := b + "}";
    return true, b;
  }

  lemma MemberAppended(before: string, comma: string, key: string, item: string, more: string, b: string)
    requires b == (if comma == "" then before else before + comma) + key + ":" + item
    ensures before + (comma + (key + (":" + (item + more))) + "}") == b + (more + "}")
  {
  }

  lemma EmptyMembers(fl: Floats, v: Json, m: map<string, Json>, ks: seq<string>)
    requires Lawful(fl)
    requires forall i | 0 <= i < |ks| :: ks[i] in m && m[ks[i]] < v && Printable(fl, m[ks[i]])
    ensures MembersFrom(fl, v, m, ks, |ks|) == "" && MembersFrom(fl, v, m, ks, 0) == PrintMembers(fl, v, m, ks)
  {
  }

  // ---------------------------------------------------------------------
  // Parsing.

  datatype Answer<T> = Done(value: T) | Stopped(why: Refusal)

  function Prepend(arr: seq<Json>, p: Parsed<seq<Json>>): Parsed<seq<Json>> {
    match p
    case Got(more, r) => Got(arr + more, r)
    case Refused(e) => Refused(e)
  }

  lemma PrependNothing(p: Parsed<seq<Json>>)
    ensures Prepend([], p) == p
  {
    if p.Got? {
      assert [] + p.value == p.value;
    }
  }

  lemma PrependMore(arr: seq<Json>, v: Json, p: Parsed<seq<Json>>)
    ensures Prepend(arr, Prepend([v], p)) == Prepend(arr + [v], p)
  {
    if p.Got? {
      assert arr + ([v] + p.value) == arr + [v] + p.value;
    }
  }

  /** What is left of the document. */
  class Decoder {
    var rest: string

    constructor (data: string)
      ensures rest == data
    {
      rest := data;
    }

    /** Passes over white space. */
    method Skip()
      modifies this
      ensures rest == SkipSpace(old(rest))
    {
      while rest != "" && IsSpace(rest[0])
        invariant SkipSpace(rest) == SkipSpace(old(rest))
        decreases |rest|
      {
        rest := rest[1..];
      }
    }

    /** Passes space and takes c if it comes next. */
    method Take(c: char) returns (ok: bool)
      requires !IsSpace(c)
      modifies this
      ensures ok <==> SkipSpace(old(rest)) != "" && SkipSpace(old(rest))[0] == c
      ensures rest == if ok then SkipSpace(old(rest))[1..] else SkipSpace(old(rest))
    {
      Skip();
      if rest != "" && rest[0] == c {
        rest := rest[1..];
        return true;
      }
      return false;
    }

    /** One value of the document. */
    method Value() returns (a: Answer<Json>)
      modifies this
      ensures match ReadValue(old(rest))
              case Got(v, r) => a == Done(v) && rest == r
              case Refused(e) => a == Stopped(e)
      decreases |rest|, 3
    {
      hide ReadLit, ReadChars, ReadElems, ReadMembers;
      ghost var t := SkipSpace(rest);
      SkipTwice(rest);
      var open := Take('{');
      if open {
        a := Object();
        return;
      }
      open := Take('[');
      if open {
        a := Array();
        return;
      }
      open := Take('"');
      if open {
        var s := ReadChars(rest);
        if s.None? {
          return Stopped(Syntax);
        }
        rest := s.value.1;
        return Done(Str(s.value.0));
      }
      a := Scalar();
    }

    method Scalar() returns (a: Answer<Json>)
      requires SkipSpace(rest) == rest
      requires rest != "" ==> rest[0] != '{' && rest[0] != '[' && rest[0] != '"'
      modifies this
      ensures match ReadValue(old(rest))
              case Got(v, r) => a == Done(v) && rest == r
              case Refused(e) => a == Stopped(e)
    {
      hide ReadLit, ReadChars, ReadElems, ReadMembers;
      if rest == "" {
        return Stopped(Syntax);
      } else if "null" <= rest {
        rest := rest[4..];
        return Done(Null);
      } else if "true" <= rest {
        rest := rest[4..];
        return Done(Bool(true));
      } else if "false" <= rest {
        rest := rest[5..];
        return Done(Bool(false));
      }
      var n := ReadLit(rest);
      if n.None? {
        return Stopped(Syntax);
      }
      rest := n.value.1;
      return Done(Num(LitText(n.value.0)));
    }

    /** The rest of an array whose bracket has been read. */
    method Array() returns (a: Answer<Json>)
      modifies this
      ensures match ReadValue("[" + old(rest))
              case Got(v, r) => a == Done(v) && rest == r
              case Refused(e) => a == Stopped(e)
      decreases |rest|, 4
    {
      hide ReadValue;
      var inner := rest;
      var shut := Take(']');
      UnfoldArray(inner);
      if shut {
        return Done(Arr([]));
      }
      var arr: seq<Json> := [];
      SkipElems(inner);
      PrependNothing(ReadElems(inner));
      while true
        invariant |rest| <= |inner|
        invariant ReadElems(inner) == Prepend(arr, ReadElems(rest))
        decreases |rest|
      {
        ghost var from := rest;
        var v := Value();
        if v.Stopped? {
          return Stopped(v.why);
        }
        ghost var arr0 := arr;
        arr := arr + [v.value];
        ghost var r := rest;
        SkipTwice(r);
        shut := Take(']');
        if shut {
          return Done(Arr(arr));
        }
        var comma := Take(',');
        if !comma {
          return Stopped(Syntax);
        }
        PrependMore(arr0, v.value, ReadElems(rest));
      }
    }

    /** The rest of an object whose brace has been read. */
    method Object() returns (a: Answer<Json>)
      modifies this
      ensures match ReadValue("{" + old(rest))
              case Got(v, r) => a == Done(v) && rest == r
              case Refused(e) => a == Stopped(e)
      decreases |rest|, 4
    {
      hide ReadValue, ReadChars;
      var inner := rest;
      var shut := Take('}');
      UnfoldObject(inner);
      if shut {
        return Done(Obj(map[]));
      }
      var obj: map<string, Json> := map[];
      SkipMembers(inner, obj);
      while true
        invariant |rest| <= |inner|
        invariant ReadMembers(inner, map[]) == ReadMembers(rest, obj)
        decreases |rest|
      {
        var quote := Take('"');
        if !quote {
          return Stopped(Syntax);
        }
        var k := ReadChars(rest);
        if k.None? {
          return Stopped(Syntax);
        }
        if k.value.0 in obj {
          return Stopped(DuplicateKey);
        }
        rest := k.value.1;
        var colon := Take(':');
        if !colon {
          return Stopped(Syntax);
        }
        var v := Value();
        if v.Stopped? {
          return Stopped(v.why);
        }
        obj := obj[k.value.0 := v.value];
        ghost var r := rest;
        SkipTwice(r);
        shut := Take('}');
        if shut {
          return Done(Obj(obj));
        }
        var comma := Take(',');
        if !comma {
          return Stopped(Syntax);
        }
      }
    }
  }

  lemma {:induction false} SkipTwice(s: string)
    ensures SkipSpace(SkipSpace(s)) == SkipSpace(s)
    decreases |s|
  {
    if s != "" && IsSpace(s[0]) {
      SkipTwice(s[1..]);
    }
  }

  lemma UnfoldArray(inner: string)
    ensures ReadValue("[" + inner) ==
      var u := SkipSpace(inner);
      if u != "" && u[0] == ']' then Got(Arr([]), u[1..])
      else match ReadElems(inner)
           case Got(es, r) => Got(Arr(es), r)
           case Refused(e) => Refused(e)
  {
    hide ReadElems, ReadMembers, ReadLit, ReadChars;
    var t := "[" + inner;
    assert t[1..] == inner && SkipSpace(t) == t;
  }

  lemma UnfoldObject(inner: string)
    ensures ReadValue("{" + inner) ==
      var u := SkipSpace(inner);
      if u != "" && u[0] == '}' then Got(Obj(map[]), u[1..])
      else match ReadMembers(inner, map[])
           case Got(m, r) => Got(Obj(m), r)
           case Refused(e) => Refused(e)
  {
    hide ReadElems, ReadMembers, ReadLit, ReadChars;
    var t := "{" + inner;
    assert t[1..] == inner && SkipSpace(t) == t;
  }

  /** Leading space makes no difference. */
  lemma SkipElems(s: string)
    ensures ReadElems(SkipSpace(s)) == ReadElems(s)
  {
    SkipTwice(s);
    assert ReadValue(SkipSpace(s)) == ReadValue(s) by {
      hide ReadElems, ReadMembers, ReadLit, ReadChars;
    }
  }

  lemma SkipMembers(s: string, seen: map<string, Json>)
    ensures ReadMembers(SkipSpace(s), seen) == ReadMembers(s, seen)
  {
    hide ReadValue, ReadChars;
    SkipTwice(s);
  }

  /** A whole document. */
  method ParseDocument(data: string) returns (a: Answer<Json>)
    ensures match Parse(data)
            case Got(v, _) => a == Done(v)
            case Refused(e) => a == Stopped(e)
  {
    hide ReadValue;
    var dec := new Decoder(data);
    a := dec.Value();
    if a.Done? {
      dec.Skip();
      if dec.rest != "" {
        return Stopped(Trailing);
      }
    }
  }

  /** The canonical form of a document: parsed, its escapes checked in the text it came
      in, and printed. */
  method EncodeDocument(fl: Floats, data: string) returns (a: Answer<string>)
    requires Lawful(fl)
    ensures match EncodeJSON(fl, data)
            case Got(t, _) => a == Done(t)
            case Refused(e) => a == Stopped(e)
  {
    hide Parse, Scan, Printable, Lawful, PrintElems, PrintMembers;
    var v := ParseDocument(data);
    if v.Stopped? {
      return Stopped(v.why);
    }
    var paired := CheckSurrogateEscapes(data);
    if !paired {
      return Stopped(LoneSurrogate);
    }
    var ok, text := EncodeValue(fl, "", v.value);
    if !ok {
      return Stopped(Number);
    }
    assert text == "" + Print(fl, v.value) == Print(fl, v.value);
    return Done(text);
  }
}
