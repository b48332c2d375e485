/** A record as one canonical JSON line: what is hashed, what is written, and how
    it is read back. */
module RecordCodec {
  import opened Prelude
  import opened JsonValue
  import opened AuditRecord
  import opened CanonicalNumber
  import opened CanonicalString
  import opened CanonicalSurrogates
  import opened CanonicalJson
  import opened CanonicalDocument

  /** How a timestamp is spelled, and which one counts as unset. */
  datatype Clock = Clock(format: int -> string, parse: string -> Option<int>, unset: int)

  function Nullable(s: string): Json {
    if s == "" then Null else Str(s)
  }

  function ActorObject(a: Actor): map<string, Json> {
    map["id" := Nullable(a.id), "method" := Nullable(a.how), "session" := Nullable(a.session)]
  }

  function SourceObject(s: Source): map<string, Json> {
    map["ip" := Nullable(s.ip), "version" := Nullable(s.version)]
  }

  function TargetObject(t: Target): map<string, Json> {
    map["kind" := Nullable(t.kind), "id" := Nullable(t.id)]
  }

  /** Every member but the hash. */
  function Hashed(clock: Clock, r: Rec): map<string, Json> {
    map[
      "v" := Int(r.body.v),
      "install" := Str(r.install),
      "seq" := Int(r.seqNo),
      "ts" := Str(clock.format(r.ts)),
      "actor" := Obj(ActorObject(r.body.actor)),
      "source" := Obj(SourceObject(r.body.source)),
      "action" := Str(r.body.action),
      "target" := if r.body.target.Some? then Obj(TargetObject(r.body.target.value)) else Null,
      "intent_hash" := Nullable(r.body.intentHash),
      "justification" := Nullable(r.body.justification),
      "outcome" := Str(r.body.outcome),
      "detail" := Obj(r.body.detail),
      "prev_hash" := Str(r.prevHash)
    ]
  }

  function Members(clock: Clock, r: Rec): map<string, Json> {
    Hashed(clock, r)["hash" := Nullable(r.hash)]
  }

  ghost function Preimage(fl: Floats, clock: Clock, r: Rec): Option<string>
    requires Lawful(fl)
  {
    Marshal(fl, Obj(Hashed(clock, r)))
  }

  ghost function Line(fl: Floats, clock: Clock, r: Rec): Option<string>
    requires Lawful(fl)
  {
    if r.hash == "" then None else Marshal(fl, Obj(Members(clock, r)))
  }

  lemma HashedIdentity(clock: Clock, r: Rec)
    ensures var m := Hashed(clock, r);
      && "v" in m && m["v"] == Int(r.body.v)
      && "install" in m && m["install"] == Str(r.install)
      && "seq" in m && m["seq"] == Int(r.seqNo)
      && "ts" in m && m["ts"] == Str(clock.format(r.ts))
      && "prev_hash" in m && m["prev_hash"] == Str(r.prevHash)
      && "hash" !in m
  {
  }

  lemma HashedWho(clock: Clock, r: Rec)
    ensures var m := Hashed(clock, r);
      && "actor" in m && m["actor"] == Obj(ActorObject(r.body.actor))
      && "source" in m && m["source"] == Obj(SourceObject(r.body.source))
      && "action" in m && m["action"] == Str(r.body.action)
      && "target" in m && m["target"] == (if r.body.target.Some? then Obj(TargetObject(r.body.target.value)) else Null)
  {
  }

  lemma HashedWhy(clock: Clock, r: Rec)
    ensures var m := Hashed(clock, r);
      && "intent_hash" in m && m["intent_hash"] == Nullable(r.body.intentHash)
      && "justification" in m && m["justification"] == Nullable(r.body.justification)
      && "outcome" in m && m["outcome"] == Str(r.body.outcome)
      && "detail" in m && m["detail"] == Obj(r.body.detail)
  {
  }

  // ---------------------------------------------------------------------
  // What the hashed bytes determine.

  lemma MemberCanon(fl: Floats, m: map<string, Json>, n: map<string, Json>, k: string)
    requires Lawful(fl) && Marshal(fl, Obj(m)).Some? && Marshal(fl, Obj(m)) == Marshal(fl, Obj(n))
    requires k in m && k in n
    ensures Printable(fl, m[k]) && Printable(fl, n[k]) && Canon(fl, m[k]) == Canon(fl, n[k])
  {
    hide Print, Lawful;
    PrintInjective(fl, Obj(m), Obj(n));
    assert Canon(fl, Obj(m)).members[k] == Canon(fl, m[k]);
    assert Canon(fl, Obj(n)).members[k] == Canon(fl, n[k]);
  }

  lemma NullableCanon(fl: Floats, s: string, t: string)
    requires Lawful(fl) && Printable(fl, Nullable(s)) && Printable(fl, Nullable(t))
    requires Canon(fl, Nullable(s)) == Canon(fl, Nullable(t))
    ensures s == t
  {
  }

  /** Two records hashed from one preimage are linked alike. */
  lemma LinkBinds(fl: Floats, clock: Clock, r: Rec, s: Rec)
    requires Lawful(fl) && Preimage(fl, clock, r).Some? && Preimage(fl, clock, r) == Preimage(fl, clock, s)
    ensures r.prevHash == s.prevHash && r.install == s.install && clock.format(r.ts) == clock.format(s.ts)
    ensures FormatInt(fl, r.seqNo) == FormatInt(fl, s.seqNo) && FormatInt(fl, r.body.v) == FormatInt(fl, s.body.v)
  {
    hide Hashed, Print, FormatInt;
    HashedIdentity(clock, r);
    HashedIdentity(clock, s);
    var m, n := Hashed(clock, r), Hashed(clock, s);
    MemberCanon(fl, m, n, "prev_hash");
    MemberCanon(fl, m, n, "install");
    MemberCanon(fl, m, n, "ts");
    MemberCanon(fl, m, n, "seq");
    MemberCanon(fl, m, n, "v");
  }

  lemma ObjectBinds(fl: Floats, m: map<string, Json>, n: map<string, Json>, k: string)
    requires Lawful(fl) && Printable(fl, Obj(m)) && Printable(fl, Obj(n)) && Canon(fl, Obj(m)) == Canon(fl, Obj(n))
    ensures k in m <==> k in n
    ensures k in m ==> Canon(fl, m[k]) == Canon(fl, n[k])
  {
    assert k in m <==> k in Canon(fl, Obj(m)).members;
    assert k in n <==> k in Canon(fl, Obj(n)).members;
    assert k in m ==> Canon(fl, Obj(m)).members[k] == Canon(fl, m[k]) && Canon(fl, Obj(n)).members[k] == Canon(fl, n[k]);
  }

  lemma ActorBinds(fl: Floats, a: Actor, b: Actor)
    requires Lawful(fl) && Printable(fl, Obj(ActorObject(a))) && Printable(fl, Obj(ActorObject(b)))
    requires Canon(fl, Obj(ActorObject(a))) == Canon(fl, Obj(ActorObject(b)))
    ensures a == b
  {
    hide Lawful, Canon;
    var m, n := ActorObject(a), ActorObject(b);
    ObjectBinds(fl, m, n, "id");
    ObjectBinds(fl, m, n, "method");
    ObjectBinds(fl, m, n, "session");
    NullableCanon(fl, a.id, b.id);
    NullableCanon(fl, a.how, b.how);
    NullableCanon(fl, a.session, b.session);
  }

  lemma SourceBinds(fl: Floats, a: Source, b: Source)
    requires Lawful(fl) && Printable(fl, Obj(SourceObject(a))) && Printable(fl, Obj(SourceObject(b)))
    requires Canon(fl, Obj(SourceObject(a))) == Canon(fl, Obj(SourceObject(b)))
    ensures a == b
  {
    hide Lawful, Canon;
    var m, n := SourceObject(a), SourceObject(b);
    ObjectBinds(fl, m, n, "ip");
    ObjectBinds(fl, m, n, "version");
    NullableCanon(fl, a.ip, b.ip);
    NullableCanon(fl, a.version, b.version);
  }

  lemma TargetBinds(fl: Floats, a: Target, b: Target)
    requires Lawful(fl) && Printable(fl, Obj(TargetObject(a))) && Printable(fl, Obj(TargetObject(b)))
    requires Canon(fl, Obj(TargetObject(a))) == Canon(fl, Obj(TargetObject(b)))
    ensures a == b
  {
    hide Lawful, Canon;
    var m, n := TargetObject(a), TargetObject(b);
    ObjectBinds(fl, m, n, "kind");
    ObjectBinds(fl, m, n, "id");
    NullableCanon(fl, a.kind, b.kind);
    NullableCanon(fl, a.id, b.id);
  }

  lemma CanonIsObject(fl: Floats, v: Json)
    requires Lawful(fl) && Printable(fl, v)
    ensures v.Obj? <==> Canon(fl, v).Obj?
  {
  }

  /** The preimage holds everything a record says: two records hashed from the same
      bytes agree in every field, numbers up to their canonical spelling. */
  lemma PreimageBinds(fl: Floats, clock: Clock, r: Rec, s: Rec)
    requires Lawful(fl) && Preimage(fl, clock, r).Some? && Preimage(fl, clock, r) == Preimage(fl, clock, s)
    ensures r.body.actor == s.body.actor && r.body.source == s.body.source
    ensures r.body.action == s.body.action && r.body.target == s.body.target
    ensures r.body.intentHash == s.body.intentHash && r.body.justification == s.body.justification
    ensures r.body.outcome == s.body.outcome
    ensures Printable(fl, Obj(r.body.detail)) && Printable(fl, Obj(s.body.detail))
    ensures Canon(fl, Obj(r.body.detail)) == Canon(fl, Obj(s.body.detail))
  {
    BodyBindsWho(fl, clock, r, s);
    BodyBindsWhy(fl, clock, r, s);
  }

  lemma BodyBindsWho(fl: Floats, clock: Clock, r: Rec, s: Rec)
    requires Lawful(fl) && Preimage(fl, clock, r).Some? && Preimage(fl, clock, r) == Preimage(fl, clock, s)
    ensures r.body.actor == s.body.actor && r.body.source == s.body.source
    ensures r.body.action == s.body.action && r.body.target == s.body.target
  {
    hide Hashed, Print, ActorObject, SourceObject, TargetObject, Lawful;
    HashedWho(clock, r);
    HashedWho(clock, s);
    var m, n := Hashed(clock, r), Hashed(clock, s);
    MemberCanon(fl, m, n, "actor");
    MemberCanon(fl, m, n, "source");
    MemberCanon(fl, m, n, "action");
    MemberCanon(fl, m, n, "target");
    ActorBinds(fl, r.body.actor, s.body.actor);
    SourceBinds(fl, r.body.source, s.body.source);
    CanonIsObject(fl, m["target"]);
    CanonIsObject(fl, n["target"]);
    if r.body.target.Some? {
      TargetBinds(fl, r.body.target.value, s.body.target.value);
    }
  }

  lemma BodyBindsWhy(fl: Floats, clock: Clock, r: Rec, s: Rec)
    requires Lawful(fl) && Preimage(fl, clock, r).Some? && Preimage(fl, clock, r) == Preimage(fl, clock, s)
    ensures r.body.intentHash == s.body.intentHash && r.body.justification == s.body.justification
    ensures r.body.outcome == s.body.outcome
    ensures Printable(fl, Obj(r.body.detail)) && Printable(fl, Obj(s.body.detail))
    ensures Canon(fl, Obj(r.body.detail)) == Canon(fl, Obj(s.body.detail))
  {
    hide Hashed, Print, Lawful, Nullable;
    HashedWhy(clock, r);
    HashedWhy(clock, s);
    var m, n := Hashed(clock, r), Hashed(clock, s);
    MemberCanon(fl, m, n, "intent_hash");
    MemberCanon(fl, m, n, "justification");
    MemberCanon(fl, m, n, "outcome");
    MemberCanon(fl, m, n, "detail");
    NullableCanon(fl, r.body.intentHash, s.body.intentHash);
    NullableCanon(fl, r.body.justification, s.body.justification);
  }
}
