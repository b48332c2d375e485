/** A record as JSON, member by member, and what an accepted one satisfies. */
module RecordForm {
  import opened Prelude
  import opened JsonValue
  import opened AuditRecord
  import opened CanonicalNumber
  import opened CanonicalJson
  import opened RecordCodec
  import opened RecordLines

  /** j holds the text s; an empty one is null. */
  predicate IsText(j: Json, s: string) {
    if s == "" then j == Null else j == Str(s)
  }

  predicate IsActor(j: Json, a: Actor) {
    && j.Obj? && j.members.Keys == {"id", "method", "session"}
    && IsText(j.members["id"], a.id) && IsText(j.members["method"], a.how) && IsText(j.members["session"], a.session)
  }

  predicate IsSource(j: Json, s: Source) {
    && j.Obj? && j.members.Keys == {"ip", "version"}
    && IsText(j.members["ip"], s.ip) && IsText(j.members["version"], s.version)
  }

  predicate IsTarget(j: Json, t: Option<Target>) {
    match t
    case None => j == Null
    case Some(v) =>
      && j.Obj? && j.members.Keys == {"kind", "id"}
      && IsText(j.members["kind"], v.kind) && IsText(j.members["id"], v.id)
  }

  lemma Nested(a: Actor, s: Source, t: Target)
    ensures IsActor(Obj(ActorObject(a)), a) && IsSource(Obj(SourceObject(s)), s) && IsTarget(Obj(TargetObject(t)), Some(t))
  {
    assert ActorObject(a).Keys == {"id", "method", "session"};
    assert SourceObject(s).Keys == {"ip", "version"};
    assert TargetObject(t).Keys == {"kind", "id"};
  }

  /** What is hashed: thirteen members under these names, and nothing else. */
  lemma HashedForm(clock: Clock, r: Rec)
    ensures var m := Hashed(clock, r);
      && m.Keys == {"v", "install", "seq", "ts", "actor", "source", "action", "target", "intent_hash", "justification",
                    "outcome", "detail", "prev_hash"}
      && m["v"] == Int(r.body.v) && m["install"] == Str(r.install) && m["seq"] == Int(r.seqNo)
      && m["ts"] == Str(clock.format(r.ts)) && m["prev_hash"] == Str(r.prevHash)
      && IsActor(m["actor"], r.body.actor) && IsSource(m["source"], r.body.source)
      && m["action"] == Str(r.body.action) && IsTarget(m["target"], r.body.target)
      && IsText(m["intent_hash"], r.body.intentHash) && IsText(m["justification"], r.body.justification)
      && m["outcome"] == Str(r.body.outcome) && m["detail"] == Obj(r.body.detail)
  {
    HashedNames(clock, r);
    HashedIdentity(clock, r);
    HashedWho(clock, r);
    HashedWhy(clock, r);
    hide Hashed, ActorObject, SourceObject, TargetObject;
    Nested(r.body.actor, r.body.source, if r.body.target.Some? then r.body.target.value else Target("", ""));
  }

  lemma HashedNames(clock: Clock, r: Rec)
    ensures Hashed(clock, r).Keys ==
      {"v", "install", "seq", "ts", "actor", "source", "action", "target", "intent_hash", "justification",
       "outcome", "detail", "prev_hash"}
  {
  }

  /** What is written to a sink: the same, and the hash. */
  lemma LineForm(clock: Clock, r: Rec)
    ensures var m, h := Members(clock, r), Hashed(clock, r);
      && m.Keys == h.Keys + {"hash"} && "hash" !in h && IsText(m["hash"], r.hash)
      && forall k | k in h :: m[k] == h[k]
  {
    HashedNames(clock, r);
    hide Hashed;
  }

  /** Every record read from a line is whole: numbered from 1 up, of a version from 1 up,
      with an installation, a set time, a way of signing in, an action, one of three
      outcomes, a predecessor's hash of 64 lower-case hexadecimal digits and a hash; and
      its target, if it has one, has a kind and an id. */
  lemma AcceptedWhole(fl: Floats, clock: Clock, line: string)
    requires Lawful(fl) && ParseLine(fl, clock, line).Some?
    ensures var r := ParseLine(fl, clock, line).value;
      && r.seqNo >= 1 && r.body.v >= 1 && r.install != "" && r.ts != clock.unset && r.hash != ""
      && r.body.actor.how != "" && r.body.action != ""
      && (r.body.outcome == "success" || r.body.outcome == "failure" || r.body.outcome == "partial")
      && |r.prevHash| == 64
      && (forall i | 0 <= i < 64 :: 0x30 <= r.prevHash[i] as int <= 0x39 || 0x61 <= r.prevHash[i] as int <= 0x66)
      && (r.body.target.Some? ==> r.body.target.value.kind != "" && r.body.target.value.id != "")
  {
    hide ParseLine, Print, Members;
    AcceptedLine(fl, clock, line);
    HasHash(fl, clock, ParseLine(fl, clock, line).value);
  }

  /** The table takes a record exactly when all of that holds of it. */
  lemma ValidExact(clock: Clock, r: Rec)
    ensures Validate(clock, r) <==>
      && r.seqNo >= 1 && r.body.v >= 1 && r.install != "" && r.ts != clock.unset
      && r.body.actor.how != "" && r.body.action != ""
      && (r.body.outcome == "success" || r.body.outcome == "failure" || r.body.outcome == "partial")
      && |r.prevHash| == 64
      && (forall i | 0 <= i < 64 :: 0x30 <= r.prevHash[i] as int <= 0x39 || 0x61 <= r.prevHash[i] as int <= 0x66)
      && (r.body.target.Some? ==> r.body.target.value.kind != "" && r.body.target.value.id != "")
  {
  }
}
