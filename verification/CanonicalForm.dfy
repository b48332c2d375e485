/** The text of a value: no space, members in the order of their names, parts joined by
    commas. */
module CanonicalForm {
  import opened Prelude
  import opened JsonValue
  import opened CanonicalNumber
  import opened CanonicalString
  import opened CanonicalJson

  /** parts with a comma between each two. */
  function Joined(parts: seq<string>): string {
    if parts == [] then ""
    else if |parts| == 1 then parts[0]
    else parts[0] + [0x2C as char] + Joined(parts[1..])
  }

  ghost function Texts(fl: Floats, es: seq<Json>): (ts: seq<string>)
    requires Lawful(fl) && forall i | 0 <= i < |es| :: Printable(fl, es[i])
    ensures |ts| == |es| && forall i | 0 <= i < |es| :: ts[i] == Print(fl, es[i])
  {
    seq(|es|, i requires 0 <= i < |es| => Print(fl, es[i]))
  }

  ghost function MemberTexts(fl: Floats, m: map<string, Json>, ks: seq<string>): (ts: seq<string>)
    requires Lawful(fl) && forall i | 0 <= i < |ks| :: ks[i] in m && Printable(fl, m[ks[i]])
    ensures |ts| == |ks|
    ensures forall i | 0 <= i < |ks| :: ts[i] == Quoted(ks[i]) + [0x3A as char] + Print(fl, m[ks[i]])
  {
    seq(|ks|, i requires 0 <= i < |ks| => Quoted(ks[i]) + [0x3A as char] + Print(fl, m[ks[i]]))
  }

  lemma {:induction false} ElemsJoined(fl: Floats, v: Json, es: seq<Json>)
    requires Lawful(fl) && forall i | 0 <= i < |es| :: es[i] < v && Printable(fl, es[i])
    ensures PrintElems(fl, v, es) == Joined(Texts(fl, es))
    decreases |es|
  {
    if es != [] {
      ElemsJoined(fl, v, es[1..]);
      hide Print, Printable, Lawful;
      assert Texts(fl, es)[1..] == Texts(fl, es[1..]);
    }
  }

  lemma MembersStep(fl: Floats, v: Json, m: map<string, Json>, ks: seq<string>)
    requires Lawful(fl) && ks != [] && forall i | 0 <= i < |ks| :: ks[i] in m && m[ks[i]] < v && Printable(fl, m[ks[i]])
    ensures PrintMembers(fl, v, m, ks) ==
      (Quoted(ks[0]) + [0x3A as char] + Print(fl, m[ks[0]])) +
      if |ks| == 1 then "" else [0x2C as char] + PrintMembers(fl, v, m, ks[1..])
  {
    hide Print, Printable, Lawful, Quoted;
  }

  lemma {:induction false} MembersJoined(fl: Floats, v: Json, m: map<string, Json>, ks: seq<string>)
    requires Lawful(fl) && forall i | 0 <= i < |ks| :: ks[i] in m && m[ks[i]] < v && Printable(fl, m[ks[i]])
    ensures PrintMembers(fl, v, m, ks) == Joined(MemberTexts(fl, m, ks))
    decreases |ks|
  {
    hide Print, Printable, Lawful, Quoted;
    if ks == [] {
      assert MemberTexts(fl, m, ks) == [];
    } else {
      MembersStep(fl, v, m, ks);
      MembersJoined(fl, v, m, ks[1..]);
      hide PrintMembers;
      assert MemberTexts(fl, m, ks)[1..] == MemberTexts(fl, m, ks[1..]);
    }
  }

  /** The whole of a value's text. The members stand strictly in the order of their names,
      each once, whatever order they were given in. */
  lemma PrintedForm(fl: Floats, v: Json) returns (ks: seq<string>)
    requires Lawful(fl) && Printable(fl, v)
    ensures match v
      case Null => Print(fl, v) == "null"
      case Bool(b) => Print(fl, v) == if b then "true" else "false"
      case Str(s) => Print(fl, v) == ['"'] + Escaped(s) + ['"']
      case Int(i) => Some(Print(fl, v)) == FormatInt(fl, i)
      case Flt(f) => Some(Print(fl, v)) == NumberText(fl, v)
      case Num(lit) => Some(Print(fl, v)) == FormatJSONNumber(fl, lit)
      case Arr(es) => Print(fl, v) == [0x5B as char] + Joined(Texts(fl, es)) + [0x5D as char]
      case Obj(m) =>
        && (forall i, j | 0 <= i < j < |ks| :: Less(ks[i], ks[j])) && (forall k :: k in ks <==> k in m)
        && (forall i | 0 <= i < |ks| :: ks[i] in m)
        && Print(fl, v) == [0x7B as char] + Joined(MemberTexts(fl, m, ks)) + [0x7D as char]
  {
    ks := [];
    match v
    case Arr(es) =>
      ElemsJoined(fl, v, es);
      hide PrintElems, Joined;
    case Obj(m) =>
      ks := SortedNames(m.Keys);
      MembersJoined(fl, v, m, ks);
      hide PrintMembers, Joined, Less;
    case _ => hide Escaped, FormatInt, FormatJSONNumber;
  }

  // ---------------------------------------------------------------------
  // The order.

  /** a stands before b: they agree up to some unit, and there a ends or has the lower. */
  ghost predicate Before(a: seq<nat>, b: seq<nat>) {
    exists i: nat :: BeforeAt(a, b, i)
  }

  predicate BeforeAt(a: seq<nat>, b: seq<nat>, i: nat) {
    && i <= |a| && i < |b| && a[..i] == b[..i]
    && (i == |a| || a[i] < b[i])
  }

  lemma FirstUnit(a: seq<nat>, b: seq<nat>, i: nat)
    requires BeforeAt(a, b, i) && i > 0
    ensures a[0] == b[0]
  {
    assert a[..i][0] == b[..i][0];
  }

  lemma {:induction false} LessUnitsExact(a: seq<nat>, b: seq<nat>)
    ensures LessUnits(a, b) <==> Before(a, b)
    decreases |a|
  {
    if a == [] || b == [] {
      if |a| < |b| {
        assert BeforeAt(a, b, 0);
      }
    } else if a[0] != b[0] {
      if a[0] < b[0] {
        assert BeforeAt(a, b, 0);
      }
      if Before(a, b) {
        var i: nat :| BeforeAt(a, b, i);
        if i > 0 {
          FirstUnit(a, b, i);
        }
      }
    } else {
      LessUnitsExact(a[1..], b[1..]);
      if Before(a[1..], b[1..]) {
        var i: nat :| BeforeAt(a[1..], b[1..], i);
        assert a[..i + 1] == [a[0]] + a[1..][..i] && b[..i + 1] == [b[0]] + b[1..][..i];
        assert BeforeAt(a, b, i + 1);
      }
      if Before(a, b) {
        var i: nat :| BeforeAt(a, b, i);
        if i > 0 {
          assert a[1..][..i - 1] == a[..i][1..] && b[1..][..i - 1] == b[..i][1..];
          assert BeforeAt(a[1..], b[1..], i - 1);
        }
      }
    }
  }

  /** Names are ordered by their UTF-16 code units: a character below U+10000 is one, and
      one from there on two, the high half first. */
  lemma LessExact(a: string, b: string, c: char)
    ensures Less(a, b) <==> Before(Utf16(a), Utf16(b))
    ensures Utf16("") == [] && Utf16([c] + a) == Utf16([c]) + Utf16(a)
    ensures var n := c as int;
      Utf16([c]) == if n < 0x10000 then [n] else [0xD800 + (n - 0x10000) / 0x400, 0xDC00 + (n - 0x10000) % 0x400]
  {
    LessUnitsExact(Utf16(a), Utf16(b));
    assert ([c] + a)[1..] == a && [c][1..] == "";
    assert Utf16([c]) == Units(c) + [];
    hide Units, LessUnits;
  }
}
