/** Reading a mirror line back: fields one by one, then the whole against itself. */
module RecordLines {
  import opened Prelude
  import opened JsonValue
  import opened AuditRecord
  import opened CanonicalNumber
  import opened CanonicalString
  import opened CanonicalSurrogates
  import opened CanonicalJson
  import opened CanonicalDocument
  import opened RecordCodec

  function StringField(m: map<string, Json>, key: string, required: bool): Option<string> {
    if key !in m then None
    else if m[key].Null? then (if required then None else Some(""))
    else if m[key].Str? then Some(m[key].s)
    else None
  }

  function ObjectField(m: map<string, Json>, key: string, required: bool): Option<Option<map<string, Json>>> {
    if key !in m then None
    else if m[key].Null? then (if required then None else Some(None))
    else if m[key].Obj? then Some(Some(m[key].members))
    else None
  }

  predicate IsInt64(i: int) { -0x8000_0000_0000_0000 <= i < 0x8000_0000_0000_0000 }

  /** A literal that is an integer of 64 bits. */
  function ParseInt64(lit: string): Option<int> {
    var l := ParseLit(lit);
    if l.None? || !IsInteger(l.value) || !IsInt64(LitInt(l.value)) then None else Some(LitInt(l.value))
  }

  function Int64Field(m: map<string, Json>, key: string): Option<int> {
    if key !in m || !m[key].Num? then None else ParseInt64(m[key].lit)
  }

  function ReadActor(m: map<string, Json>): Option<Actor> {
    var id, how, session := StringField(m, "id", false), StringField(m, "method", false), StringField(m, "session", false);
    if id.None? || how.None? || session.None? then None else Some(Actor(id.value, how.value, session.value))
  }

  function ReadSource(m: map<string, Json>): Option<Source> {
    var ip, version := StringField(m, "ip", false), StringField(m, "version", false);
    if ip.None? || version.None? then None else Some(Source(ip.value, version.value))
  }

  function ReadTarget(m: map<string, Json>): Option<Target> {
    var kind, id := StringField(m, "kind", false), StringField(m, "id", false);
    if kind.None? || id.None? then None else Some(Target(kind.value, id.value))
  }

  /** The parts of a record that stand outside its body. */
  function ReadFrame(clock: Clock, m: map<string, Json>): Option<(string, int, int, string, string)> {
    var seqNo, install := Int64Field(m, "seq"), StringField(m, "install", true);
    var ts := StringField(m, "ts", true);
    var prevHash, hash := StringField(m, "prev_hash", true), StringField(m, "hash", true);
    if seqNo.None? || install.None? || ts.None? || prevHash.None? || hash.None? then None
    else if clock.parse(ts.value).None? then None
    else Some((install.value, seqNo.value, clock.parse(ts.value).value, prevHash.value, hash.value))
  }

  function ReadWho(m: map<string, Json>): Option<(Actor, Source, string, Option<Target>)> {
    var actor, source := ObjectField(m, "actor", true), ObjectField(m, "source", true);
    var action, target := StringField(m, "action", true), ObjectField(m, "target", false);
    if actor.None? || source.None? || action.None? || target.None? || actor.value.None? || source.value.None? then None
    else
      var a, s := ReadActor(actor.value.value), ReadSource(source.value.value);
      var t := if target.value.None? then Some(None)
               else var t := ReadTarget(target.value.value); if t.None? then None else Some(Some(t.value));
      if a.None? || s.None? || t.None? then None else Some((a.value, s.value, action.value, t.value))
  }

  function ReadWhy(m: map<string, Json>): Option<(int, string, string, string, map<string, Json>)> {
    var v, outcome := Int64Field(m, "v"), StringField(m, "outcome", true);
    var intent, justification := StringField(m, "intent_hash", false), StringField(m, "justification", false);
    var detail := ObjectField(m, "detail", true);
    if v.None? || outcome.None? || intent.None? || justification.None? || detail.None? || detail.value.None? then None
    else Some((v.value, intent.value, justification.value, outcome.value, detail.value.value))
  }

  function ReadRecord(clock: Clock, m: map<string, Json>): Option<Rec> {
    var f, w, y := ReadFrame(clock, m), ReadWho(m), ReadWhy(m);
    if f.None? || w.None? || y.None? then None
    else Some(Rec(f.value.0, f.value.1, f.value.2, f.value.3, f.value.4,
                  Body(y.value.0, w.value.0, w.value.1, w.value.2, w.value.3,
                       y.value.1, y.value.2, y.value.3, y.value.4)))
  }

  predicate Validate(clock: Clock, r: Rec) {
    && r.body.v > 0 && r.install != "" && r.seqNo > 0 && r.ts != clock.unset
    && r.body.actor.how != "" && r.body.action != ""
    && r.body.outcome in ["success", "failure", "partial"]
    && HexHash(r.prevHash)
    && (r.body.target.Some? ==> r.body.target.value.kind != "" && r.body.target.value.id != "")
  }

  ghost function ParseLine(fl: Floats, clock: Clock, line: string): Option<Rec>
    requires Lawful(fl)
  {
    match Parse(line)
    case Refused(_) => None
    case Got(v, _) =>
      if !v.Obj? then None
      else
        var r := ReadRecord(clock, v.members);
        if r.None? then None
        else
          var want := EncodeJSON(fl, line);
          if want.Refused? || Line(fl, clock, r.value) != Some(want.value) || !Validate(clock, r.value) then None
          else r
  }

  // ---------------------------------------------------------------------
  // What an accepted line is.

  /** Objects whose members have one canonical form print alike. */
  lemma SameMembers(fl: Floats, m: map<string, Json>, n: map<string, Json>)
    requires Lawful(fl) && m.Keys == n.Keys
    requires Printable(fl, Obj(m)) && Representable(fl, Obj(m)) && Representable(fl, Obj(n))
    requires forall k | k in m :: Printable(fl, n[k]) && Canon(fl, n[k]) == Canon(fl, m[k])
    ensures Marshal(fl, Obj(n)) == Marshal(fl, Obj(m)) && Canon(fl, Obj(n)) == Canon(fl, Obj(m))
  {
    hide Print, Lawful;
    assert Printable(fl, Obj(n));
    assert Canon(fl, Obj(n)).members == Canon(fl, Obj(m)).members;
    CanonStable(fl, Obj(m));
    CanonStable(fl, Obj(n));
  }

  lemma HashedKeys(clock: Clock, r: Rec)
    ensures Hashed(clock, r).Keys == {"v", "install", "seq", "ts", "actor", "source", "action", "target",
                                      "intent_hash", "justification", "outcome", "detail", "prev_hash"}
  {
  }

  lemma Restates(fl: Floats, clock: Clock, r: Rec)
    requires Representable(fl, Obj(r.body.detail))
    ensures Representable(fl, Obj(Members(clock, r))) && Representable(fl, Obj(Hashed(clock, r)))
  {
    hide Hashed, ActorObject, SourceObject, TargetObject;
    HashedIdentity(clock, r);
    HashedWho(clock, r);
    HashedWhy(clock, r);
    HashedKeys(clock, r);
    PlainObjects(fl, r.body);
  }

  lemma PlainObjects(fl: Floats, b: Body)
    ensures Representable(fl, Obj(ActorObject(b.actor))) && Representable(fl, Obj(SourceObject(b.source)))
    ensures b.target.Some? ==> Representable(fl, Obj(TargetObject(b.target.value)))
  {
  }

  lemma LineAndPreimage(fl: Floats, clock: Clock, r: Rec)
    requires Lawful(fl) && Line(fl, clock, r).Some?
    ensures Printable(fl, Obj(Members(clock, r))) && Printable(fl, Obj(Hashed(clock, r)))
    ensures forall k | k in Hashed(clock, r) :: k in Members(clock, r) && Members(clock, r)[k] == Hashed(clock, r)[k]
  {
    hide Print, Lawful, Hashed;
    HashedIdentity(clock, r);
    var m, h := Members(clock, r), Hashed(clock, r);
    forall k | k in h ensures Printable(fl, h[k]) && m[k] == h[k] {
      assert k != "hash" && k in m;
      assert Printable(fl, m[k]);
    }
  }

  /** Records printed as one line were hashed from the same bytes and carry the same
      hash: nothing on the line is outside what the hash covers. */
  lemma LineBinds(fl: Floats, clock: Clock, r: Rec, s: Rec)
    requires Lawful(fl) && Line(fl, clock, r).Some? && Line(fl, clock, r) == Line(fl, clock, s)
    requires Representable(fl, Obj(r.body.detail)) && Representable(fl, Obj(s.body.detail))
    ensures r.hash == s.hash && Preimage(fl, clock, r).Some? && Preimage(fl, clock, r) == Preimage(fl, clock, s)
  {
    hide Print, Lawful, Hashed, Canon, Representable, Printable;
    var m, n := Members(clock, r), Members(clock, s);
    MemberCanon(fl, m, n, "hash");
    NullableCanon(fl, r.hash, s.hash);
    LineAndPreimage(fl, clock, r);
    LineAndPreimage(fl, clock, s);
    Restates(fl, clock, r);
    Restates(fl, clock, s);
    HashedKeys(clock, r);
    HashedKeys(clock, s);
    var g, h := Hashed(clock, r), Hashed(clock, s);
    forall k | k in g ensures Printable(fl, g[k]) && Printable(fl, h[k]) && Canon(fl, h[k]) == Canon(fl, g[k]) {
      assert k in h && g[k] == m[k] && h[k] == n[k];
      MemberCanon(fl, m, n, k);
    }
    SameMembers(fl, g, h);
  }

  lemma ReadDetail(clock: Clock, m: map<string, Json>)
    requires ReadRecord(clock, m).Some?
    ensures "detail" in m && m["detail"] == Obj(ReadRecord(clock, m).value.body.detail)
  {
    hide ReadFrame, ReadWho, StringField, Int64Field;
  }

  /** Whatever an accepted line says is in the record read: the line's canonical form
      is the record's own line, so no member was dropped, misread or invented, and
      the record is one the table could hold. */
  lemma AcceptedLine(fl: Floats, clock: Clock, line: string)
    requires Lawful(fl) && ParseLine(fl, clock, line).Some?
    ensures var r := ParseLine(fl, clock, line).value;
      && Line(fl, clock, r).Some? && EncodeJSON(fl, line) == Got(Line(fl, clock, r).value, "")
      && Validate(clock, r) && Representable(fl, Obj(r.body.detail))
  {
    hide Print, Canon, ReadRecord, Validate, Scan, ReadValue, Printable, Lawful;
    var m := Parse(line).value.members;
    ReadHasNoDoubles(fl, line);
    ReadDetail(clock, m);
  }

  /** Two accepted lines with one canonical form carry the same hash over the same
      bytes: spacing, escapes and number spelling are the only freedom a line has. */
  lemma SameCanonicalForm(fl: Floats, clock: Clock, line: string, other: string)
    requires Lawful(fl) && ParseLine(fl, clock, line).Some? && ParseLine(fl, clock, other).Some?
    requires EncodeJSON(fl, line) == EncodeJSON(fl, other)
    ensures var r, s := ParseLine(fl, clock, line).value, ParseLine(fl, clock, other).value;
      r.hash == s.hash && Preimage(fl, clock, r).Some? && Preimage(fl, clock, r) == Preimage(fl, clock, s)
  {
    hide ParseLine, EncodeJSON, Line, Preimage, Validate, Representable, Lawful;
    AcceptedLine(fl, clock, line);
    AcceptedLine(fl, clock, other);
    LineBinds(fl, clock, ParseLine(fl, clock, line).value, ParseLine(fl, clock, other).value);
  }

  // ---------------------------------------------------------------------
  // Reading back what was written.

  /** The integer the canonical text of i is read back as. */
  function Reread(fl: Floats, i: int): Option<int>
    requires Lawful(fl)
  {
    var text := FormatInt(fl, i);
    if text.None? then None else ParseInt64(text.value)
  }

  /** The text read back is the text of what was read. */
  lemma RereadText(fl: Floats, i: int)
    requires Lawful(fl) && Reread(fl, i).Some?
    ensures FormatInt(fl, Reread(fl, i).value) == FormatInt(fl, i)
  {
    NumberIsLit(fl, Int(i));
  }

  lemma DigitsLit(i: int)
    ensures var l := NumLit(i < 0, DigitsOf(if i < 0 then -i else i), "", None);
      LitForm(l) && LitText(l) == IntText(i) && LitInt(l) == i
  {
    var n := if i < 0 then -i else i;
    NatOfDigits(n);
    var l := NumLit(i < 0, DigitsOf(n), "", None);
    assert BodyText(l) == DigitsOf(n);
  }

  lemma RereadSmall(fl: Floats, i: int)
    requires Lawful(fl) && SmallExact(fl) && -EXACT_BOUND <= i <= EXACT_BOUND
    ensures Reread(fl, i) == Some(i)
  {
    hide FormatInt, DigitsOf, LitForm, LitInt, LitText, IntText, ReadLit, ParseLit, Lawful, SmallExact;
    SmallInts(fl, i);
    DigitsLit(i);
    ParseBack(NumLit(i < 0, DigitsOf(if i < 0 then -i else i), "", None));
  }

  /** The time the text of t is read back as. */
  function Retime(clock: Clock, t: int): Option<int> {
    clock.parse(clock.format(t))
  }

  /** Every part of r's line that is not plain text can be read. */
  predicate Legible(fl: Floats, clock: Clock, r: Rec)
    requires Lawful(fl)
  {
    Reread(fl, r.seqNo).Some? && Reread(fl, r.body.v).Some? && Retime(clock, r.ts).Some?
  }

  /** r as it is read back. */
  function AsRead(fl: Floats, clock: Clock, r: Rec): Rec
    requires Lawful(fl) && Printable(fl, Obj(r.body.detail)) && Legible(fl, clock, r)
  {
    r.(seqNo := Reread(fl, r.seqNo).value, ts := Retime(clock, r.ts).value,
       body := r.body.(v := Reread(fl, r.body.v).value, detail := Canon(fl, Obj(r.body.detail)).members))
  }

  /** The integers come back positive, and the time as a set one of the same text. */
  predicate Rereads(fl: Floats, clock: Clock, r: Rec)
    requires Lawful(fl)
  {
    && Legible(fl, clock, r)
    && Reread(fl, r.seqNo).value > 0 && Reread(fl, r.body.v).value > 0
    && clock.format(Retime(clock, r.ts).value) == clock.format(r.ts) && Retime(clock, r.ts).value != clock.unset
  }

  lemma StringRead(fl: Floats, m: map<string, Json>, c: map<string, Json>, k: string, s: string)
    requires Lawful(fl) && k in m && k in c && Printable(fl, m[k]) && c[k] == Canon(fl, m[k])
    ensures m[k] == Str(s) ==> StringField(c, k, true) == Some(s)
    ensures m[k] == Nullable(s) ==> StringField(c, k, false) == Some(s)
    ensures m[k] == Nullable(s) && s != "" ==> StringField(c, k, true) == Some(s)
  {
  }

  lemma IntRead(fl: Floats, m: map<string, Json>, c: map<string, Json>, k: string, i: int)
    requires Lawful(fl) && k in m && k in c && Printable(fl, m[k]) && c[k] == Canon(fl, m[k]) && m[k] == Int(i)
    ensures Int64Field(c, k) == Reread(fl, i)
  {
    hide FormatInt, ParseInt64;
  }

  /** What a line of r parses to. */
  ghost predicate Mirrors(fl: Floats, m: map<string, Json>, c: map<string, Json>)
    requires Lawful(fl)
  {
    c.Keys == m.Keys && forall k | k in m :: Printable(fl, m[k]) && c[k] == Canon(fl, m[k])
  }

  lemma Mirrored(fl: Floats, m: map<string, Json>)
    requires Lawful(fl) && Printable(fl, Obj(m))
    ensures Mirrors(fl, m, Canon(fl, Obj(m)).members)
  {
  }

  lemma FrameRead(fl: Floats, clock: Clock, r: Rec, c: map<string, Json>)
    requires Lawful(fl) && r.hash != "" && Mirrors(fl, Members(clock, r), c)
    ensures ReadFrame(clock, c) ==
      if Reread(fl, r.seqNo).None? || Retime(clock, r.ts).None? then None
      else Some((r.install, Reread(fl, r.seqNo).value, Retime(clock, r.ts).value, r.prevHash, r.hash))
  {
    hide Hashed, StringField, Int64Field, Reread, Printable, Canon, Lawful;
    var m := Members(clock, r);
    HashedIdentity(clock, r);
    IntRead(fl, m, c, "seq", r.seqNo);
    StringRead(fl, m, c, "install", r.install);
    StringRead(fl, m, c, "ts", clock.format(r.ts));
    StringRead(fl, m, c, "prev_hash", r.prevHash);
    StringRead(fl, m, c, "hash", r.hash);
  }

  lemma ActorRead(fl: Floats, a: Actor)
    requires Lawful(fl) && Printable(fl, Obj(ActorObject(a)))
    ensures Canon(fl, Obj(ActorObject(a))).Obj? && ReadActor(Canon(fl, Obj(ActorObject(a))).members) == Some(a)
  {
    hide StringField, Nullable, Lawful;
    var m := ActorObject(a);
    var c := Canon(fl, Obj(m)).members;
    Mirrored(fl, m);
    StringRead(fl, m, c, "id", a.id);
    StringRead(fl, m, c, "method", a.how);
    StringRead(fl, m, c, "session", a.session);
  }

  lemma SourceRead(fl: Floats, a: Source)
    requires Lawful(fl) && Printable(fl, Obj(SourceObject(a)))
    ensures Canon(fl, Obj(SourceObject(a))).Obj? && ReadSource(Canon(fl, Obj(SourceObject(a))).members) == Some(a)
  {
    hide StringField, Nullable, Lawful;
    var m := SourceObject(a);
    var c := Canon(fl, Obj(m)).members;
    Mirrored(fl, m);
    StringRead(fl, m, c, "ip", a.ip);
    StringRead(fl, m, c, "version", a.version);
  }

  lemma TargetRead(fl: Floats, a: Target)
    requires Lawful(fl) && Printable(fl, Obj(TargetObject(a)))
    ensures Canon(fl, Obj(TargetObject(a))).Obj? && ReadTarget(Canon(fl, Obj(TargetObject(a))).members) == Some(a)
  {
    hide StringField, Nullable, Lawful;
    var m := TargetObject(a);
    var c := Canon(fl, Obj(m)).members;
    Mirrored(fl, m);
    StringRead(fl, m, c, "kind", a.kind);
    StringRead(fl, m, c, "id", a.id);
  }

  lemma WhoRead(fl: Floats, clock: Clock, r: Rec, c: map<string, Json>)
    requires Lawful(fl) && Mirrors(fl, Members(clock, r), c)
    ensures ReadWho(c) == Some((r.body.actor, r.body.source, r.body.action, r.body.target))
  {
    hide Hashed, StringField, Reread, Printable, ActorObject, SourceObject, TargetObject,
      ReadActor, ReadSource, ReadTarget, Lawful;
    var m := Members(clock, r);
    HashedWho(clock, r);
    assert m["actor"] == Obj(ActorObject(r.body.actor)) && m["source"] == Obj(SourceObject(r.body.source));
    ActorRead(fl, r.body.actor);
    SourceRead(fl, r.body.source);
    StringRead(fl, m, c, "action", r.body.action);
    if r.body.target.Some? {
      assert m["target"] == Obj(TargetObject(r.body.target.value));
      TargetRead(fl, r.body.target.value);
    }
  }

  lemma WhyRead(fl: Floats, clock: Clock, r: Rec, c: map<string, Json>)
    requires Lawful(fl) && Mirrors(fl, Members(clock, r), c)
    ensures Printable(fl, Obj(r.body.detail)) && Canon(fl, Obj(r.body.detail)).Obj?
    ensures ReadWhy(c) ==
      if Reread(fl, r.body.v).None? then None
      else Some((Reread(fl, r.body.v).value, r.body.intentHash, r.body.justification, r.body.outcome,
                 Canon(fl, Obj(r.body.detail)).members))
  {
    hide Hashed, StringField, Int64Field, Reread, Lawful, Nullable, Canon, Printable;
    var m := Members(clock, r);
    HashedIdentity(clock, r);
    HashedWhy(clock, r);
    assert m["detail"] == Obj(r.body.detail) && Printable(fl, m["detail"]);
    CanonIsObject(fl, Obj(r.body.detail));
    IntRead(fl, m, c, "v", r.body.v);
    StringRead(fl, m, c, "outcome", r.body.outcome);
    StringRead(fl, m, c, "intent_hash", r.body.intentHash);
    StringRead(fl, m, c, "justification", r.body.justification);
  }

  lemma LineRead(fl: Floats, clock: Clock, r: Rec, c: map<string, Json>)
    requires Lawful(fl) && r.hash != "" && Mirrors(fl, Members(clock, r), c)
    ensures Printable(fl, Obj(r.body.detail))
    ensures ReadRecord(clock, c) == if Legible(fl, clock, r) then Some(AsRead(fl, clock, r)) else None
  {
    hide Hashed, StringField, Int64Field, Reread, Retime, Lawful, Printable, ReadFrame, ReadWho, ReadWhy, Mirrors;
    FrameRead(fl, clock, r, c);
    WhoRead(fl, clock, r, c);
    WhyRead(fl, clock, r, c);
  }

  /** Reading a detail object back leaves its canonical form alone. */
  lemma DetailKept(fl: Floats, v: Json)
    requires Lawful(fl) && Printable(fl, v) && Representable(fl, v)
    ensures var c := Canon(fl, v); Printable(fl, c) && Canon(fl, c) == c && Representable(fl, c)
  {
    hide Print, Lawful, Normal, ReadValue, Canon, Printable, Representable;
    CanonNormal(fl, v);
    NormalFixed(fl, Canon(fl, v));
    ParsePrint(fl, v);
    ReadHasNoDoubles(fl, Print(fl, v));
  }

  lemma MemberKept(fl: Floats, m: map<string, Json>, n: map<string, Json>, i: int, q: int, j: int, w: int, d: Json, e: Json)
    requires Lawful(fl) && Printable(fl, Obj(m)) && {"v", "seq", "detail"} <= m.Keys
    requires m["v"] == Int(j) && m["seq"] == Int(i) && m["detail"] == d
    requires n == m["v" := Int(w)]["seq" := Int(q)]["detail" := e]
    requires FormatInt(fl, q) == FormatInt(fl, i) && FormatInt(fl, w) == FormatInt(fl, j)
    requires Printable(fl, d) && Printable(fl, e) && Canon(fl, e) == Canon(fl, d)
    ensures n.Keys == m.Keys
    ensures forall k | k in m :: Printable(fl, m[k]) && Printable(fl, n[k]) && Canon(fl, n[k]) == Canon(fl, m[k])
  {
    hide FormatInt, Lawful, Canon, Printable;
    IntKept(fl, i, q);
    IntKept(fl, j, w);
    forall k | k in m ensures Printable(fl, m[k]) && Printable(fl, n[k]) && Canon(fl, n[k]) == Canon(fl, m[k]) {
      MemberPrints(fl, m, k);
      MemberPrints(fl, m, "v");
      MemberPrints(fl, m, "seq");
    }
  }

  lemma IntKept(fl: Floats, i: int, q: int)
    requires Lawful(fl) && FormatInt(fl, q) == FormatInt(fl, i)
    ensures Printable(fl, Int(i)) ==> Printable(fl, Int(q)) && Canon(fl, Int(q)) == Canon(fl, Int(i))
  {
    hide FormatInt, Lawful;
  }

  lemma MemberPrints(fl: Floats, m: map<string, Json>, k: string)
    requires Lawful(fl) && Printable(fl, Obj(m)) && k in m
    ensures Printable(fl, m[k])
  {
  }

  lemma AsReadMembers(clock: Clock, r: Rec, q: int, t: int, w: int, d: map<string, Json>)
    requires clock.format(t) == clock.format(r.ts)
    ensures Members(clock, r.(seqNo := q, ts := t, body := r.body.(v := w, detail := d)))
      == Members(clock, r)["v" := Int(w)]["seq" := Int(q)]["detail" := Obj(d)]
    ensures {"v", "seq", "detail"} <= Members(clock, r).Keys
    ensures var m := Members(clock, r);
      m["v"] == Int(r.body.v) && m["seq"] == Int(r.seqNo) && m["detail"] == Obj(r.body.detail)
  {
    hide Hashed, ActorObject, SourceObject, TargetObject, Nullable;
    var s := r.(seqNo := q, ts := t, body := r.body.(v := w, detail := d));
    HashedIdentity(clock, r);
    HashedWho(clock, r);
    HashedWhy(clock, r);
    HashedKeys(clock, r);
    HashedIdentity(clock, s);
    HashedWho(clock, s);
    HashedWhy(clock, s);
    HashedKeys(clock, s);
    var g, h := Hashed(clock, r), Hashed(clock, s);
    forall k | k in h ensures h[k] == g["v" := Int(w)]["seq" := Int(q)]["detail" := Obj(d)][k] {
    }
    assert h == g["v" := Int(w)]["seq" := Int(q)]["detail" := Obj(d)];
  }

  /** The record read back prints as the record written. */
  lemma SameLine(fl: Floats, clock: Clock, r: Rec)
    requires Lawful(fl) && Line(fl, clock, r).Some? && Representable(fl, Obj(r.body.detail))
    requires Legible(fl, clock, r) && clock.format(Retime(clock, r.ts).value) == clock.format(r.ts)
    ensures Printable(fl, Obj(r.body.detail)) && Representable(fl, Obj(AsRead(fl, clock, r).body.detail))
    ensures Line(fl, clock, AsRead(fl, clock, r)) == Line(fl, clock, r)
  {
    hide Print, Lawful, Reread, Members, FormatInt, Representable;
    var m, d := Members(clock, r), Obj(r.body.detail);
    assert Printable(fl, Obj(m));
    AsReadMembers(clock, r, 0, r.ts, 0, map[]);
    assert Printable(fl, m["detail"]);
    var s := AsRead(fl, clock, r);
    var n := Members(clock, s);
    AsReadMembers(clock, r, s.seqNo, s.ts, s.body.v, s.body.detail);
    RereadText(fl, r.seqNo);
    RereadText(fl, r.body.v);
    DetailKept(fl, d);
    assert Obj(s.body.detail) == Canon(fl, d);
    MemberKept(fl, m, n, r.seqNo, s.seqNo, r.body.v, s.body.v, d, Obj(s.body.detail));
    Restates(fl, clock, r);
    Restates(fl, clock, s);
    SameMembers(fl, m, n);
  }

  lemma WrittenForm(fl: Floats, clock: Clock, r: Rec)
    requires Lawful(fl) && Line(fl, clock, r).Some? && Representable(fl, Obj(r.body.detail))
    ensures var t := Line(fl, clock, r).value;
      && Printable(fl, Obj(Members(clock, r)))
      && Parse(t) == Got(Canon(fl, Obj(Members(clock, r))), "") && EncodeJSON(fl, t) == Got(t, "")
  {
    hide Print, Lawful, Members, Canon, Scan, Representable, Printable, ReadValue;
    var v := Obj(Members(clock, r));
    Restates(fl, clock, r);
    ParsePrint(fl, v);
    ScanPrint(fl, v, "");
    assert Print(fl, v) + "" == Print(fl, v);
    ScanNothing();
    CanonStable(fl, v);
  }

  lemma HasHash(fl: Floats, clock: Clock, r: Rec)
    requires Lawful(fl) && Line(fl, clock, r).Some?
    ensures r.hash != ""
  {
  }

  lemma Positives(clock: Clock, r: Rec)
    requires Validate(clock, r)
    ensures r.seqNo > 0 && r.body.v > 0 && r.ts != clock.unset
  {
  }

  /** A record that prints as r spells its time as r does. */
  lemma SameTime(fl: Floats, clock: Clock, r: Rec, s: Rec)
    requires Lawful(fl) && Line(fl, clock, r).Some? && Line(fl, clock, s) == Line(fl, clock, r)
    requires Representable(fl, Obj(r.body.detail)) && Representable(fl, Obj(s.body.detail))
    ensures clock.format(s.ts) == clock.format(r.ts)
  {
    hide Print, Lawful, Hashed, Canon, Representable, Printable, Line, Preimage;
    LineBinds(fl, clock, r, s);
    LinkBinds(fl, clock, r, s);
  }

  /** Writing and reading agree: the line of a well-formed chained record is read back
      exactly when the texts of its two integers are positive 64-bit literals and the
      text of its time is a set time's own; what is read prints the same line and
      hashes to the same value. */
  lemma LineRoundTrip(fl: Floats, clock: Clock, r: Rec)
    requires Lawful(fl) && Validate(clock, r)
    requires Line(fl, clock, r).Some? && Representable(fl, Obj(r.body.detail))
    ensures ParseLine(fl, clock, Line(fl, clock, r).value).Some? <==> Rereads(fl, clock, r)
    ensures Printable(fl, Obj(r.body.detail))
    ensures Rereads(fl, clock, r) ==>
      && ParseLine(fl, clock, Line(fl, clock, r).value) == Some(AsRead(fl, clock, r))
      && Line(fl, clock, AsRead(fl, clock, r)) == Line(fl, clock, r)
      && Preimage(fl, clock, AsRead(fl, clock, r)) == Preimage(fl, clock, r)
  {
    hide Print, Lawful, Members, Canon, Scan, Representable, Printable, Reread, Retime, EncodeJSON, Parse, ReadRecord,
      Line, Preimage;
    var t := Line(fl, clock, r).value;
    HasHash(fl, clock, r);
    WrittenForm(fl, clock, r);
    Mirrored(fl, Members(clock, r));
    var c := Canon(fl, Obj(Members(clock, r)));
    CanonIsObject(fl, Obj(Members(clock, r)));
    LineRead(fl, clock, r, c.members);
    if Legible(fl, clock, r) {
      if clock.format(Retime(clock, r.ts).value) == clock.format(r.ts) {
        SameLine(fl, clock, r);
        LineBinds(fl, clock, r, AsRead(fl, clock, r));
      } else if Line(fl, clock, AsRead(fl, clock, r)) == Line(fl, clock, r) {
        ReadTyped(fl, clock, r);
        SameTime(fl, clock, r, AsRead(fl, clock, r));
        assert false;
      }
    }
  }

  lemma ReadTyped(fl: Floats, clock: Clock, r: Rec)
    requires Lawful(fl) && Printable(fl, Obj(r.body.detail)) && Representable(fl, Obj(r.body.detail))
    requires Legible(fl, clock, r)
    ensures Representable(fl, Obj(AsRead(fl, clock, r).body.detail))
  {
    hide Lawful, Representable, Printable, Reread, Retime, Canon;
    DetailKept(fl, Obj(r.body.detail));
    CanonIsObject(fl, Obj(r.body.detail));
  }

  /** Within the range a double counts exactly, and with a time that is read back as
      itself, nothing but the detail's spelling changes on the way through a line. */
  lemma SmallRoundTrip(fl: Floats, clock: Clock, r: Rec)
    requires Lawful(fl) && SmallExact(fl) && Validate(clock, r)
    requires Line(fl, clock, r).Some? && Representable(fl, Obj(r.body.detail))
    requires r.seqNo <= EXACT_BOUND && r.body.v <= EXACT_BOUND && Retime(clock, r.ts) == Some(r.ts)
    ensures Printable(fl, Obj(r.body.detail)) && Canon(fl, Obj(r.body.detail)).Obj?
    ensures ParseLine(fl, clock, Line(fl, clock, r).value) ==
      Some(r.(body := r.body.(detail := Canon(fl, Obj(r.body.detail)).members)))
  {
    hide ParseLine, Line, Lawful, Representable, Reread, Retime, SmallExact, Printable;
    Positives(clock, r);
    RereadSmall(fl, r.seqNo);
    RereadSmall(fl, r.body.v);
    LineRoundTrip(fl, clock, r);
    CanonIsObject(fl, Obj(r.body.detail));
  }
}
