/** The parser against the grammar, both ways. */
module CanonicalParse {
  import opened Prelude
  import opened JsonValue
  import opened CanonicalNumber
  import opened CanonicalString
  import opened CanonicalJson
  import opened CanonicalGrammar

  // ---------------------------------------------------------------------
  // The parser's steps, space included.

  lemma SkipTwice(s: string)
    ensures SkipSpace(SkipSpace(s)) == SkipSpace(s)
  {
  }

  lemma ReadSkip(s: string)
    ensures ReadValue(SkipSpace(s)) == ReadValue(s)
  {
    hide ReadLit, ReadChars, ReadElems, ReadMembers;
    SkipTwice(s);
  }

  lemma MembersSkip(s: string, seen: map<string, Json>)
    ensures ReadMembers(SkipSpace(s), seen) == ReadMembers(s, seen)
  {
    hide ReadValue, ReadChars;
    SkipTwice(s);
  }

  lemma ArrayStep(inner: string)
    ensures var u := SkipSpace(inner);
      ReadValue("[" + inner) ==
        if u != "" && u[0] == ']' then Got(Arr([]), u[1..])
        else match ReadElems(inner) case Got(es, r) => Got(Arr(es), r) case Refused(e) => Refused(e)
  {
    hide ReadLit, ReadChars, ReadElems, ReadMembers;
    var t := "[" + inner;
    assert t[1..] == inner && SkipSpace(t) == t;
  }

  lemma ObjectStep(inner: string)
    ensures var u := SkipSpace(inner);
      ReadValue("{" + inner) ==
        if u != "" && u[0] == '}' then Got(Obj(map[]), u[1..])
        else match ReadMembers(inner, map[]) case Got(m, r) => Got(Obj(m), r) case Refused(e) => Refused(e)
  {
    hide ReadLit, ReadChars, ReadElems, ReadMembers;
    var t := "{" + inner;
    assert t[1..] == inner && SkipSpace(t) == t;
  }

  lemma ElemsStep(s: string, v: Json, r: string)
    requires ReadValue(s) == Got(v, r)
    ensures var t := SkipSpace(r);
      ReadElems(s) ==
        if t == "" then Refused(Syntax)
        else if t[0] == ']' then Got([v], t[1..])
        else if t[0] != ',' then Refused(Syntax)
        else match ReadElems(t[1..]) case Refused(e) => Refused(e) case Got(more, u) => Got([v] + more, u)
  {
    hide ReadValue;
  }

  /** One member: its name, the colon, its value, and what comes behind it. */
  lemma MembersStep(s: string, seen: map<string, Json>, name: string, c: string, v: Json, r: string)
    requires s != "" && s[0] == '"' && ReadChars(s[1..]).Some? && ReadChars(s[1..]).value.0 == name && name !in seen
    requires SkipSpace(ReadChars(s[1..]).value.1) == ":" + c && ReadValue(c) == Got(v, r)
    ensures var u := SkipSpace(r);
      ReadMembers(s, seen) ==
        if u == "" then Refused(Syntax)
        else if u[0] == '}' then Got(seen[name := v], u[1..])
        else if u[0] != ',' then Refused(Syntax)
        else ReadMembers(u[1..], seen[name := v])
  {
    hide ReadValue, ReadChars;
    assert SkipSpace(s) == s;
    assert (":" + c)[1..] == c;
  }

  // ---------------------------------------------------------------------
  // Every text of the grammar is read, for what it says.

  lemma TextStarts(n: Node)
    requires Form(n)
    ensures Text(n) != "" && !IsSpace(Text(n)[0]) && Text(n)[0] != ']' && Text(n)[0] != '}'
    ensures n.NumNode? ==> Text(n)[0] == '-' || IsDigit(Text(n)[0])
  {
    hide SlotsText, MembersText;
    if n.NumNode? {
      BodyStart(n.lit, "");
      assert BodyText(n.lit) + "" == BodyText(n.lit);
      hide BodyText;
    }
  }

  /** What may stand behind a value: the end, space, or one of the closing marks. */
  lemma EndsAfter(after: string, tail: string)
    requires Ws(after) && (tail != "" ==> tail[0] == ',' || tail[0] == ']' || tail[0] == '}')
    ensures Ends(after + tail) && (tail != "" ==> SkipSpace(after + tail) == tail)
  {
    if tail != "" {
      SkipWs(after, tail);
    }
  }

  lemma SlotApart(s: Slot, tail: string)
    ensures SlotText(s) + tail == s.before + (Text(s.node) + (s.after + tail))
  {
    hide Text;
  }

  lemma SlotStarts(s: Slot, tail: string)
    requires SlotForm(s)
    ensures var t := SkipSpace(SlotText(s) + tail); t != "" && t[0] != ']' && t[0] != '}'
  {
    SlotApart(s, tail);
    TextStarts(s.node);
    hide Text, SlotText, Form;
    var t := Text(s.node) + (s.after + tail);
    SkipWs(s.before, t);
  }

  lemma SlotsApart(n: Node, items: seq<Slot>, tail: string)
    requires items != [] && forall i | 0 <= i < |items| :: items[i] < n
    ensures SlotsText(n, items) + tail ==
      SlotText(items[0]) + if |items| == 1 then tail else "," + (SlotsText(n, items[1..]) + tail)
  {
    hide SlotText;
  }

  lemma ValuesStep(n: Node, items: seq<Slot>)
    requires items != [] && forall i | 0 <= i < |items| :: items[i] < n
    ensures Values(n, items) ==
      if |items| == 1 then [Value(items[0].node)] else [Value(items[0].node)] + Values(n, items[1..])
  {
    hide Value;
    if |items| == 1 {
      assert items[1..] == [];
    }
  }

  lemma SlotParts(s: Slot)
    requires SlotForm(s)
    ensures Ws(s.before) && Form(s.node) && Ws(s.after)
  {
  }

  lemma MemberParts(m: Member)
    requires MemberForm(m)
    ensures Ws(m.before) && Raw(m.raw, m.name) && Ws(m.after) && SlotForm(m.slot)
  {
  }

  lemma {:induction false} ElemsRead(n: Node, items: seq<Slot>, rest: string)
    requires items != [] && forall i | 0 <= i < |items| :: items[i] < n && SlotForm(items[i])
    ensures ReadElems(SlotsText(n, items) + ("]" + rest)) == Got(Values(n, items), rest)
    decreases n, 0, |items|
  {
    hide ReadElems, ReadValue, Text, SlotText, Form, SlotForm, Ws, Value, Values;
    var s := items[0];
    SlotParts(s);
    ValuesStep(n, items);
    var tail := if |items| == 1 then "]" + rest else "," + (SlotsText(n, items[1..]) + ("]" + rest));
    SlotsApart(n, items, "]" + rest);
    SlotApart(s, tail);
    EndsAfter(s.after, tail);
    TextRead(s.node, s.before, s.after + tail);
    ElemsStep(SlotText(s) + tail, Value(s.node), s.after + tail);
    if |items| == 1 {
      assert tail[1..] == rest;
    } else {
      ElemsRead(n, items[1..], rest);
      assert tail[1..] == SlotsText(n, items[1..]) + ("]" + rest);
    }
  }

  lemma MemberApart(m: Member, tail: string)
    ensures MemberText(m) + tail ==
      m.before + ("\"" + (m.raw + "\"" + (m.after + (":" + (SlotText(m.slot) + tail)))))
  {
    hide SlotText;
  }

  lemma MembersApart(n: Node, members: seq<Member>, tail: string)
    requires members != [] && forall i | 0 <= i < |members| :: members[i] < n
    ensures MembersText(n, members) + tail ==
      MemberText(members[0]) + if |members| == 1 then tail else "," + (MembersText(n, members[1..]) + tail)
  {
    hide MemberText;
  }

  predicate Apart(members: seq<Member>, seen: map<string, Json>) {
    && (forall i, j | 0 <= i < j < |members| :: members[i].name != members[j].name)
    && (forall i | 0 <= i < |members| :: members[i].name !in seen)
  }

  lemma ApartTail(members: seq<Member>, seen: map<string, Json>, v: Json)
    requires members != [] && Apart(members, seen)
    ensures members[0].name !in seen && Apart(members[1..], seen[members[0].name := v])
  {
  }

  /** One member is read up to what stands behind its value. */
  lemma MemberRead(m: Member, seen: map<string, Json>, tail: string)
    requires MemberForm(m) && m.name !in seen && tail != "" && (tail[0] == ',' || tail[0] == '}')
    requires ReadValue(SlotText(m.slot) + tail) == Got(Value(m.slot.node), m.slot.after + tail)
    ensures ReadMembers(MemberText(m) + tail, seen) ==
      if tail[0] == '}' then Got(seen[m.name := Value(m.slot.node)], tail[1..])
      else ReadMembers(tail[1..], seen[m.name := Value(m.slot.node)])
  {
    hide ReadMembers, ReadValue, Text, SlotText, Form, Value, Raw, ReadChars;
    MemberApart(m, tail);
    var c := SlotText(m.slot) + tail;
    var after := m.after + (":" + c);
    var s := "\"" + (m.raw + "\"" + after);
    SkipWs(m.before, s);
    MembersSkip(m.before + s, seen);
    assert s[1..] == m.raw + "\"" + after;
    RawBack(m.raw, m.name, after);
    SkipWs(m.after, ":" + c);
    EndsAfter(m.slot.after, tail);
    MembersStep(s, seen, m.name, c, Value(m.slot.node), m.slot.after + tail);
  }

  lemma FoldStep(n: Node, seen: map<string, Json>, members: seq<Member>)
    requires members != [] && forall i | 0 <= i < |members| :: members[i] < n
    ensures var next := seen[members[0].name := Value(members[0].slot.node)];
      Fold(n, seen, members) == if |members| == 1 then next else Fold(n, next, members[1..])
  {
    hide Value;
    if |members| == 1 {
      assert members[1..] == [];
    }
  }

  lemma {:induction false} MembersRead(n: Node, seen: map<string, Json>, members: seq<Member>, rest: string)
    requires members != [] && Apart(members, seen)
    requires forall i | 0 <= i < |members| :: members[i] < n && MemberForm(members[i])
    ensures ReadMembers(MembersText(n, members) + ("}" + rest), seen) == Got(Fold(n, seen, members), rest)
    decreases n, 0, |members|
  {
    hide ReadMembers, ReadValue, Text, SlotText, MemberText, Form, Ws, Value, Raw, MemberForm, SlotForm, Fold;
    var m := members[0];
    MemberParts(m);
    SlotParts(m.slot);
    FoldStep(n, seen, members);
    var tail := if |members| == 1 then "}" + rest else "," + (MembersText(n, members[1..]) + ("}" + rest));
    MembersApart(n, members, "}" + rest);
    SlotApart(m.slot, tail);
    EndsAfter(m.slot.after, tail);
    TextRead(m.slot.node, m.slot.before, m.slot.after + tail);
    MemberRead(m, seen, tail);
    ApartTail(members, seen, Value(m.slot.node));
    if |members| == 1 {
      assert tail[1..] == rest;
    } else {
      MembersRead(n, seen[m.name := Value(m.slot.node)], members[1..], rest);
      assert tail[1..] == MembersText(n, members[1..]) + ("}" + rest);
    }
  }

  lemma WordRead(n: Node, rest: string)
    requires n.NullNode? || n.BoolNode?
    ensures ReadValue(Text(n) + rest) == Got(Value(n), rest)
  {
    hide ReadValue;
    StepWord(Value(n), Text(n), rest);
  }

  lemma StrRead(n: Node, rest: string)
    requires Form(n) && n.StrNode?
    ensures ReadValue(Text(n) + rest) == Got(Value(n), rest)
  {
    hide ReadValue, Raw;
    RawBack(n.raw, n.s, rest);
    StepString(n.raw + "\"" + rest);
    assert Text(n) + rest == "\"" + (n.raw + "\"" + rest);
  }

  lemma NumRead(n: Node, rest: string)
    requires Form(n) && n.NumNode? && Ends(rest)
    ensures ReadValue(Text(n) + rest) == Got(Value(n), rest)
  {
    hide ReadValue, ReadLit, LitText;
    ReadBack(n.lit, rest);
    TextStarts(n);
    StepNumber(Text(n) + rest);
  }

  lemma ArrText(gap: string, items: seq<Slot>, rest: string)
    ensures var n := ArrNode(gap, items);
      Text(n) + rest == "[" + (gap + (SlotsText(n, items) + ("]" + rest))) && Value(n) == Arr(Values(n, items))
  {
    hide SlotsText, Values;
  }

  lemma ObjText(gap: string, members: seq<Member>, rest: string)
    ensures var n := ObjNode(gap, members);
      && Text(n) + rest == "{" + (gap + (MembersText(n, members) + ("}" + rest)))
      && Value(n) == Obj(Fold(n, map[], members))
  {
    hide MembersText, Fold;
  }

  lemma {:induction false} TextRead(n: Node, a: string, rest: string)
    requires Form(n) && Ws(a) && (n.NumNode? ==> Ends(rest))
    ensures ReadValue(a + (Text(n) + rest)) == Got(Value(n), rest)
    decreases n, 1
  {
    TextStarts(n);
    SkipWs(a, Text(n) + rest);
    ReadSkip(a + (Text(n) + rest));
    hide ReadValue, ReadElems, ReadMembers, SlotsText, MembersText, Raw, Ws, Ends, Text, Value, Form, Values, Fold, SkipSpace;
    match n
    case NullNode => WordRead(n, rest);
    case BoolNode(_) => WordRead(n, rest);
    case StrNode(_, _) => StrRead(n, rest);
    case NumNode(_) => NumRead(n, rest);
    case ArrNode(gap, items) =>
      var inner := gap + (SlotsText(n, items) + ("]" + rest));
      ArrText(gap, items, rest);
      ArrayStep(inner);
      ArrRead(n, inner, rest);
    case ObjNode(gap, members) =>
      var inner := gap + (MembersText(n, members) + ("}" + rest));
      ObjText(gap, members, rest);
      ObjectStep(inner);
      ObjRead(n, inner, rest);
  }

  lemma {:induction false} ArrRead(n: Node, inner: string, rest: string)
    requires Form(n) && n.ArrNode? && inner == n.gap + (SlotsText(n, n.items) + ("]" + rest))
    ensures var u := SkipSpace(inner);
      if n.items == [] then u == "]" + rest && Values(n, n.items) == []
      else u != "" && u[0] != ']' && ReadElems(inner) == Got(Values(n, n.items), rest)
    decreases n, 0, |n.items| + 1
  {
    hide ReadElems, Text, SlotText, Value;
    if n.items == [] {
      SkipWs(n.gap, "]" + rest);
      assert SlotsText(n, n.items) + ("]" + rest) == "]" + rest;
    } else {
      assert inner == SlotsText(n, n.items) + ("]" + rest);
      ElemsRead(n, n.items, rest);
      SlotsApart(n, n.items, "]" + rest);
      SlotStarts(n.items[0], if |n.items| == 1 then "]" + rest else "," + (SlotsText(n, n.items[1..]) + ("]" + rest)));
    }
  }

  lemma MemberStarts(m: Member, tail: string)
    requires MemberForm(m)
    ensures var t := SkipSpace(MemberText(m) + tail); t != "" && t[0] != '}'
  {
    hide SlotText, SlotForm, Raw;
    MemberApart(m, tail);
    SkipWs(m.before, "\"" + (m.raw + "\"" + (m.after + (":" + (SlotText(m.slot) + tail)))));
  }

  lemma {:induction false} ObjRead(n: Node, inner: string, rest: string)
    requires Form(n) && n.ObjNode? && inner == n.gap + (MembersText(n, n.members) + ("}" + rest))
    ensures var u := SkipSpace(inner);
      if n.members == [] then u == "}" + rest && Fold(n, map[], n.members) == map[]
      else u != "" && u[0] != '}' && ReadMembers(inner, map[]) == Got(Fold(n, map[], n.members), rest)
    decreases n, 0, |n.members| + 1
  {
    hide ReadMembers, Text, MemberText, Value;
    if n.members == [] {
      SkipWs(n.gap, "}" + rest);
      assert MembersText(n, n.members) + ("}" + rest) == "}" + rest;
    } else {
      assert inner == MembersText(n, n.members) + ("}" + rest);
      MembersRead(n, map[], n.members, rest);
      MembersApart(n, n.members, "}" + rest);
      MemberStarts(n.members[0],
        if |n.members| == 1 then "}" + rest else "," + (MembersText(n, n.members[1..]) + ("}" + rest)));
    }
  }

  // ---------------------------------------------------------------------
  // Whatever is read is a text of the grammar.

  lemma {:induction false} SlotsSame(n: Node, k: Node, items: seq<Slot>)
    requires forall i | 0 <= i < |items| :: items[i] < n && items[i] < k
    ensures SlotsText(n, items) == SlotsText(k, items) && Values(n, items) == Values(k, items)
    decreases |items|
  {
    hide SlotText, Value;
    if items != [] {
      SlotsSame(n, k, items[1..]);
    }
  }

  lemma {:induction false} MembersSame(n: Node, k: Node, seen: map<string, Json>, members: seq<Member>)
    requires forall i | 0 <= i < |members| :: members[i] < n && members[i] < k
    ensures MembersText(n, members) == MembersText(k, members) && Fold(n, seen, members) == Fold(k, seen, members)
    decreases |members|
  {
    hide MemberText, Value;
    if members != [] {
      MembersSame(n, k, seen[members[0].name := Value(members[0].slot.node)], members[1..]);
    }
  }

  /** n stands in s, behind space, with rest behind it, and says v. */
  predicate Stands(n: Node, a: string, s: string, v: Json, rest: string) {
    Ws(a) && Form(n) && s == a + (Text(n) + rest) && Value(n) == v
  }

  lemma WordOf(s: string, t: string, word: string, n: Node, a: string)
    requires Ws(a) && s == a + t && word <= t && Form(n) && word == Text(n)
    ensures Stands(n, a, s, Value(n), t[|word|..])
  {
    assert t == word + t[|word|..];
  }

  /** What a string or a number stands for. */
  lemma Flat(n: Node)
    ensures n.StrNode? ==> Text(n) == "\"" + (n.raw + "\"") && Value(n) == Str(n.s) && (Form(n) <==> Raw(n.raw, n.s))
    ensures n.NumNode? ==> Text(n) == LitText(n.lit) && Value(n) == Num(LitText(n.lit)) && (Form(n) <==> LitForm(n.lit))
  {
    hide LitText, LitForm, Raw;
  }

  lemma Quotes(t: string, raw: string, rest: string)
    requires t != "" && t[0] == '"' && t[1..] == raw + "\"" + rest
    ensures t == "\"" + (raw + "\"") + rest && t == "\"" + (raw + ("\"" + rest))
  {
    assert t == "\"" + t[1..];
  }

  lemma StandsHere(n: Node, a: string, s: string, rest: string)
    requires Ws(a) && Form(n) && s == a + (Text(n) + rest)
    ensures Stands(n, a, s, Value(n), rest)
  {
  }

  lemma StrOf(s: string, a: string, t: string) returns (n: Node)
    requires Ws(a) && s == a + t && t != "" && t[0] == '"' && ReadChars(t[1..]).Some?
    ensures Stands(n, a, s, Str(ReadChars(t[1..]).value.0), ReadChars(t[1..]).value.1)
  {
    hide Raw, ReadChars, Ws, Text, Value, Form, Stands;
    var (v, rest) := ReadChars(t[1..]).value;
    var raw := ReadRaw(t[1..]);
    n := StrNode(raw, v);
    Flat(n);
    assert Text(n) + rest == t by {
      Quotes(t, raw, rest);
    }
    StandsHere(n, a, s, rest);
  }

  lemma NumOf(s: string, a: string, t: string) returns (n: Node)
    requires Ws(a) && s == a + t && ReadLit(t).Some?
    ensures Stands(n, a, s, Num(LitText(ReadLit(t).value.0)), ReadLit(t).value.1)
  {
    var (l, rest) := ReadLit(t).value;
    n := NumNode(l);
    hide ReadLit, LitText, LitForm, Ws, Text, Value, Form;
    Flat(n);
  }

  /** A value read is a text of the grammar. */
  lemma {:induction false} TreeOf(s: string) returns (n: Node, a: string)
    requires ReadValue(s).Got?
    ensures Stands(n, a, s, ReadValue(s).value, ReadValue(s).rest)
    decreases |s|, 1
  {
    a := SkippedWs(s);
    var t := SkipSpace(s);
    if t[0] == '{' {
      n := ObjOf(s, a, t);
    } else if t[0] == '[' {
      n := ArrOf(s, a, t);
    } else {
      n := FlatOf(s, a, t);
    }
  }

  lemma FlatOf(s: string, a: string, t: string) returns (n: Node)
    requires ReadValue(s).Got? && Ws(a) && s == a + t && t == SkipSpace(s) && t != "" && t[0] != '{' && t[0] != '['
    ensures Stands(n, a, s, ReadValue(s).value, ReadValue(s).rest)
  {
    hide ReadElems, ReadMembers, ReadLit, ReadChars, LitText, Stands, Ws;
    if t[0] == '"' {
      n := StrOf(s, a, t);
    } else if "null" <= t {
      n := NullNode;
      WordOf(s, t, "null", n, a);
    } else if "true" <= t {
      n := BoolNode(true);
      WordOf(s, t, "true", n, a);
    } else if "false" <= t {
      n := BoolNode(false);
      WordOf(s, t, "false", n, a);
    } else {
      n := NumOf(s, a, t);
    }
  }

  lemma {:induction false} ArrOf(s: string, a: string, t: string) returns (n: Node)
    requires ReadValue(s).Got? && Ws(a) && s == a + t && t == SkipSpace(s) && t != "" && t[0] == '['
    ensures Stands(n, a, s, ReadValue(s).value, ReadValue(s).rest)
    decreases |s|, 0
  {
    hide ReadElems, ReadMembers, ReadLit, ReadChars, Stands, Ws;
    var inner := t[1..];
    var u := SkipSpace(inner);
    assert t == "[" + inner;
    ReadSkip(s);
    ArrayStep(inner);
    if u != "" && u[0] == ']' {
      var gap := SkippedWs(inner);
      n := NoItems(s, a, gap, u);
    } else {
      var items := ElemsOf(inner);
      n := WithItems(s, a, items, ReadElems(inner).value, ReadElems(inner).rest);
    }
  }

  lemma NoSlots(n: Node)
    ensures SlotsText(n, []) == "" && Values(n, []) == []
  {
  }

  lemma NoItems(s: string, a: string, gap: string, u: string) returns (n: Node)
    requires Ws(a) && Ws(gap) && u != "" && u[0] == ']' && s == a + ("[" + (gap + u))
    ensures Stands(n, a, s, Arr([]), u[1..])
  {
    hide Ws, Text, SlotsText, Value, Values;
    n := ArrNode(gap, []);
    NoSlots(n);
    ArrText(gap, [], u[1..]);
    assert u == "" + ("]" + u[1..]);
  }

  predicate Listed(n: Node, items: seq<Slot>, s: string, vs: seq<Json>, rest: string)
    requires forall i | 0 <= i < |items| :: items[i] < n
  {
    && items != [] && (forall i | 0 <= i < |items| :: SlotForm(items[i]))
    && s == SlotsText(n, items) + ("]" + rest) && Values(n, items) == vs
  }

  lemma WithItems(s: string, a: string, items: seq<Slot>, vs: seq<Json>, rest: string) returns (n: Node)
    requires Ws(a) && |s| > |a| && s == a + ("[" + s[|a| + 1..])
    requires Listed(ArrNode("", items), items, s[|a| + 1..], vs, rest)
    ensures Stands(n, a, s, Arr(vs), rest)
  {
    hide SlotsText, SlotForm, Values, Value, Text;
    n := ArrNode("", items);
    assert Ws("") && Form(n);
    ArrText("", items, rest);
    hide Ws, Form;
    assert "" + s[|a| + 1..] == s[|a| + 1..];
  }

  lemma {:induction false} ElemsOf(s: string) returns (items: seq<Slot>)
    requires ReadElems(s).Got?
    ensures Listed(ArrNode("", items), items, s, ReadElems(s).value, ReadElems(s).rest)
    decreases |s|, 2
  {
    hide ReadValue, Stands, Listed, Ws;
    var v, r := ReadValue(s).value, ReadValue(s).rest;
    assert ReadValue(s) == Got(v, r);
    var n, a := TreeOf(s);
    var b := SkippedWs(r);
    var t := SkipSpace(r);
    ElemsStep(s, v, r);
    var slot := Slot(a, n, b);
    SlotOf(slot, s, v, t);
    if t[0] == ']' {
      items := [slot];
      LastItem(slot, s, v, t);
    } else {
      var more := ElemsOf(t[1..]);
      items := [slot] + more;
      NextItem(slot, more, s, v, t, ReadElems(t[1..]).value, ReadElems(t[1..]).rest);
    }
  }

  lemma SlotOf(slot: Slot, s: string, v: Json, t: string)
    requires Stands(slot.node, slot.before, s, v, slot.after + t) && Ws(slot.after)
    ensures SlotForm(slot) && s == SlotText(slot) + t && Value(slot.node) == v
  {
    hide Text, Value, Form, Ws;
    SlotApart(slot, t);
  }

  lemma LastItem(slot: Slot, s: string, v: Json, t: string)
    requires SlotForm(slot) && s == SlotText(slot) + t && Value(slot.node) == v && t != "" && t[0] == ']'
    ensures Listed(ArrNode("", [slot]), [slot], s, [v], t[1..])
  {
    hide SlotForm, SlotText, Value;
    var n, items := ArrNode("", [slot]), [slot];
    ValuesStep(n, items);
    SlotsApart(n, items, t);
    assert t == "]" + t[1..];
  }

  lemma NextItem(slot: Slot, more: seq<Slot>, s: string, v: Json, t: string, vs: seq<Json>, rest: string)
    requires SlotForm(slot) && s == SlotText(slot) + t && Value(slot.node) == v && t != "" && t[0] == ','
    requires Listed(ArrNode("", more), more, t[1..], vs, rest)
    ensures Listed(ArrNode("", [slot] + more), [slot] + more, s, [v] + vs, rest)
  {
    hide SlotForm, SlotText, Value, SlotsText, Values;
    var items := [slot] + more;
    var n, k := ArrNode("", items), ArrNode("", more);
    assert items[1..] == more;
    assert forall i | 0 <= i < |more| :: more[i] == items[i + 1];
    SlotsSame(n, k, more);
    ValuesStep(n, items);
    SlotsApart(n, items, "]" + rest);
    assert t == "," + t[1..];
  }

  // Objects.

  lemma {:induction false} ObjOf(s: string, a: string, t: string) returns (n: Node)
    requires ReadValue(s).Got? && Ws(a) && s == a + t && t == SkipSpace(s) && t != "" && t[0] == '{'
    ensures Stands(n, a, s, ReadValue(s).value, ReadValue(s).rest)
    decreases |s|, 0
  {
    hide ReadElems, ReadMembers, ReadLit, ReadChars, Stands, Ws;
    var inner := t[1..];
    var u := SkipSpace(inner);
    assert t == "{" + inner;
    ReadSkip(s);
    ObjectStep(inner);
    if u != "" && u[0] == '}' {
      var gap := SkippedWs(inner);
      n := NoMembers(s, a, gap, u);
    } else {
      var members := MembersOf(inner, map[]);
      n := WithMembers(s, a, members, ReadMembers(inner, map[]).value, ReadMembers(inner, map[]).rest);
    }
  }

  lemma NoneFolded(n: Node)
    ensures MembersText(n, []) == "" && Fold(n, map[], []) == map[]
  {
  }

  lemma NoMembers(s: string, a: string, gap: string, u: string) returns (n: Node)
    requires Ws(a) && Ws(gap) && u != "" && u[0] == '}' && s == a + ("{" + (gap + u))
    ensures Stands(n, a, s, Obj(map[]), u[1..])
  {
    hide Ws, Text, MembersText, Value, Fold;
    n := ObjNode(gap, []);
    NoneFolded(n);
    ObjText(gap, [], u[1..]);
    assert u == "" + ("}" + u[1..]);
  }

  predicate Held(n: Node, members: seq<Member>, seen: map<string, Json>, s: string, m: map<string, Json>, rest: string)
    requires forall i | 0 <= i < |members| :: members[i] < n
  {
    && members != [] && (forall i | 0 <= i < |members| :: MemberForm(members[i])) && Apart(members, seen)
    && s == MembersText(n, members) + ("}" + rest) && Fold(n, seen, members) == m
  }

  lemma WithMembers(s: string, a: string, members: seq<Member>, m: map<string, Json>, rest: string) returns (n: Node)
    requires Ws(a) && |s| > |a| && s == a + ("{" + s[|a| + 1..])
    requires Held(ObjNode("", members), members, map[], s[|a| + 1..], m, rest)
    ensures Stands(n, a, s, Obj(m), rest)
  {
    hide MembersText, MemberForm, Fold, Value, Text;
    n := ObjNode("", members);
    assert Ws("") && Form(n);
    ObjText("", members, rest);
    hide Ws, Form;
    assert "" + s[|a| + 1..] == s[|a| + 1..];
  }

  /** Members were read only if the first has a name not seen, a colon and a value. */
  lemma MemberGot(s: string, seen: map<string, Json>)
    requires ReadMembers(s, seen).Got?
    ensures var t := SkipSpace(s);
      && t != "" && t[0] == '"' && ReadChars(t[1..]).Some? && ReadChars(t[1..]).value.0 !in seen
      && var d := SkipSpace(ReadChars(t[1..]).value.1);
      && d != "" && d[0] == ':' && ReadValue(d[1..]).Got?
      && var u := SkipSpace(ReadValue(d[1..]).rest);
      && var next := seen[ReadChars(t[1..]).value.0 := ReadValue(d[1..]).value];
      && u != "" && (u[0] == '}' || u[0] == ',')
      && ReadMembers(s, seen) == if u[0] == '}' then Got(next, u[1..]) else ReadMembers(u[1..], next)
  {
    hide ReadValue, ReadChars, SkipSpace;
  }

  /** The parts of one member as they were read. */
  lemma MemberSplit(s: string, seen: map<string, Json>) returns (before: string, raw: string, name: string, after: string, c: string)
    requires ReadMembers(s, seen).Got?
    ensures Ws(before) && Raw(raw, name) && Ws(after) && name !in seen
    ensures s == before + ("\"" + (raw + "\"" + (after + (":" + c)))) && |c| < |s|
    ensures ReadValue(c).Got?
    ensures var u := SkipSpace(ReadValue(c).rest);
      && u != "" && (u[0] == '}' || u[0] == ',')
      && ReadMembers(s, seen) ==
        if u[0] == '}' then Got(seen[name := ReadValue(c).value], u[1..]) else ReadMembers(u[1..], seen[name := ReadValue(c).value])
  {
    hide ReadValue, Raw, Ws, ReadChars, ReadMembers, SkipSpace;
    MemberGot(s, seen);
    before := SkippedWs(s);
    var t := SkipSpace(s);
    var k := ReadChars(t[1..]).value;
    name := k.0;
    raw := ReadRaw(t[1..]);
    after := SkippedWs(k.1);
    var d := SkipSpace(k.1);
    c := d[1..];
    Quotes(t, raw, k.1);
    assert d == ":" + c;
  }

  lemma {:induction false} MembersOf(s: string, seen: map<string, Json>) returns (members: seq<Member>)
    requires ReadMembers(s, seen).Got?
    ensures Held(ObjNode("", members), members, seen, s, ReadMembers(s, seen).value, ReadMembers(s, seen).rest)
    decreases |s|, 2
  {
    hide ReadValue, ReadMembers, Stands, Held, Ws, Raw;
    var before, raw, name, after, c := MemberSplit(s, seen);
    var v, r := ReadValue(c).value, ReadValue(c).rest;
    var n, a := TreeOf(c);
    var b := SkippedWs(r);
    var u := SkipSpace(r);
    var slot := Slot(a, n, b);
    SlotOf(slot, c, v, u);
    var m := Member(before, raw, name, after, slot);
    MemberOf(m, s, c, u);
    if u[0] == '}' {
      members := [m];
      LastMember(m, seen, s, u);
    } else {
      var more := MembersOf(u[1..], seen[name := v]);
      members := [m] + more;
      NextMember(m, more, seen, s, u, ReadMembers(s, seen).value, ReadMembers(s, seen).rest);
    }
  }

  lemma MemberOf(m: Member, s: string, c: string, u: string)
    requires Ws(m.before) && Raw(m.raw, m.name) && Ws(m.after) && SlotForm(m.slot)
    requires s == m.before + ("\"" + (m.raw + "\"" + (m.after + (":" + c)))) && c == SlotText(m.slot) + u
    ensures MemberForm(m) && s == MemberText(m) + u
  {
    hide SlotText, Ws, Raw, SlotForm;
    MemberApart(m, u);
  }

  lemma LastMember(m: Member, seen: map<string, Json>, s: string, u: string)
    requires MemberForm(m) && s == MemberText(m) + u && m.name !in seen && u != "" && u[0] == '}'
    ensures Held(ObjNode("", [m]), [m], seen, s, seen[m.name := Value(m.slot.node)], u[1..])
  {
    hide MemberForm, MemberText, Value;
    var n, members := ObjNode("", [m]), [m];
    FoldStep(n, seen, members);
    MembersApart(n, members, u);
    assert u == "}" + u[1..];
  }

  lemma NextMember(m: Member, more: seq<Member>, seen: map<string, Json>, s: string, u: string, all: map<string, Json>, rest: string)
    requires MemberForm(m) && s == MemberText(m) + u && m.name !in seen && u != "" && u[0] == ','
    requires Held(ObjNode("", more), more, seen[m.name := Value(m.slot.node)], u[1..], all, rest)
    ensures Held(ObjNode("", [m] + more), [m] + more, seen, s, all, rest)
  {
    hide MemberForm, MemberText, Value, MembersText, Fold;
    var members := [m] + more;
    var n, k := ObjNode("", members), ObjNode("", more);
    var next := seen[m.name := Value(m.slot.node)];
    assert members[1..] == more;
    assert forall i | 0 <= i < |more| :: more[i] == members[i + 1];
    assert forall i | 0 <= i < |more| :: more[i].name != m.name;
    MembersSame(n, k, next, more);
    FoldStep(n, seen, members);
    MembersApart(n, members, "}" + rest);
    assert u == "," + u[1..];
  }

  // ---------------------------------------------------------------------
  // Documents.

  lemma {:induction false} SpaceOnly(b: string)
    ensures SkipSpace(b) == "" <==> Ws(b)
  {
    var a := SkippedWs(b);
    if Ws(b) {
      SkipWs(b, "");
      assert b + "" == b;
    } else {
      assert SkipSpace(b) == "" ==> a + "" == b;
    }
  }

  /** The documents taken are exactly the texts of the grammar with space around, and each is
      taken for what it says. */
  lemma ParseExact(data: string, v: Json)
    ensures Parse(data) == Got(v, "") <==>
      (exists a, n, b :: Ws(a) && Ws(b) && Form(n) && data == a + (Text(n) + b) && Value(n) == v)
  {
    hide ReadValue, Ws, Text, Value, Form;
    if Parse(data) == Got(v, "") {
      var n, a := TreeOf(data);
      var b := ReadValue(data).rest;
      SpaceOnly(b);
      assert Ws(a) && Ws(b) && Form(n) && data == a + (Text(n) + b) && Value(n) == v;
    }
    if a, n, b :| Ws(a) && Ws(b) && Form(n) && data == a + (Text(n) + b) && Value(n) == v {
      BlankEnds(b);
      TextRead(n, a, b);
      SpaceOnly(b);
    }
  }

  lemma BlankEnds(b: string)
    requires Ws(b)
    ensures Ends(b)
  {
  }
}
