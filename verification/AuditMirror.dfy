/** From the seam to the verifier and back: what a mirror written by any run of
    audited calls is worth, and how much of history one hash holds. */
module AuditMirror {
  import opened Prelude
  import opened JsonValue
  import opened AuditRecord
  import opened ChainVerify
  import opened ChainExact
  import opened ChainFragments
  import ChainLaws
  import ChainScan
  import opened ChainCompare
  import opened ChainAssess
  import opened CanonicalNumber
  import opened CanonicalJson
  import opened RecordCodec
  import opened RecordLines
  import opened AuditChain
  import opened AuditLog
  import opened AuditRuns
  import opened AuditSteps
  import AuditOverlap
  import AuditOrder
  import ChainDisorder

  ghost function Preimages(fl: Floats, clock: Clock): Rec -> Option<string>
    requires Lawful(fl)
  {
    (r: Rec) => Preimage(fl, clock, r)
  }

  /** Records hashed, checked and printed the way the source does it. */
  ghost function Canonically(fl: Floats, clock: Clock, sha: string -> string): Codec
    requires Lawful(fl)
  {
    Codec(Hashing(Preimages(fl, clock), sha), (r: Rec) => Validate(clock, r), (r: Rec) => RecordCodec.Line(fl, clock, r))
  }

  // ---------------------------------------------------------------------
  // One hash, all of history.

  lemma PreimagesLink(fl: Floats, clock: Clock)
    requires Lawful(fl)
    ensures LinkHashed(Preimages(fl, clock))
  {
    hide Preimage, Lawful;
    var pre := Preimages(fl, clock);
    forall r, s | pre(r).Some? && pre(r) == pre(s) ensures r.prevHash == s.prevHash {
      RecordCodec.LinkBinds(fl, clock, r, s);
    }
  }

  /** r and s say the same thing: every field agrees, numbers up to their spelling. */
  ghost predicate Agree(fl: Floats, clock: Clock, r: Rec, s: Rec)
    requires Lawful(fl)
  {
    && r.prevHash == s.prevHash && r.install == s.install && clock.format(r.ts) == clock.format(s.ts)
    && FormatInt(fl, r.seqNo) == FormatInt(fl, s.seqNo) && FormatInt(fl, r.body.v) == FormatInt(fl, s.body.v)
    && r.body.actor == s.body.actor && r.body.source == s.body.source
    && r.body.action == s.body.action && r.body.target == s.body.target
    && r.body.intentHash == s.body.intentHash && r.body.justification == s.body.justification
    && r.body.outcome == s.body.outcome
    && Printable(fl, Obj(r.body.detail)) && Printable(fl, Obj(s.body.detail))
    && Canon(fl, Obj(r.body.detail)) == Canon(fl, Obj(s.body.detail))
  }

  /** Two sources the verifier passes from genesis, ending at one sequence number with
      one hash, tell one history: every line of either has its counterpart in the
      other, and lines of one sequence number agree in every field, unless two lines
      among them exhibit a collision of the hash. */
  lemma HeadHoldsHistory(fl: Floats, clock: Clock, sha: string -> string, window: nat,
      a: seq<Rec>, b: seq<Rec>, headA: Rec, headB: Rec)
    requires Lawful(fl) && window > 0
    requires var pre := Preimages(fl, clock);
      && Head(Hashing(pre, sha), window, a, headA) && Head(Hashing(pre, sha), window, b, headB)
      && headA.seqNo == headB.seqNo && headA.hash == headB.hash
      && !Collision(pre, sha, a, b)
    ensures forall r, s | r in a && s in b && r.seqNo == s.seqNo :: Agree(fl, clock, r, s)
    ensures forall r | r in a :: exists s :: s in b && s.seqNo == r.seqNo
  {
    hide Preimage, Lawful, Head, Collision, Agree;
    var pre := Preimages(fl, clock);
    PreimagesLink(fl, clock);
    HeadCommits(pre, sha, window, a, b, headA, headB);
    forall r, s | r in a && s in b && r.seqNo == s.seqNo ensures Agree(fl, clock, r, s) {
      assert pre(r) == pre(s);
      HashedInHead(pre, sha, window, a, headA, r);
      Agreeing(fl, clock, r, s);
    }
  }

  lemma Agreeing(fl: Floats, clock: Clock, r: Rec, s: Rec)
    requires Lawful(fl) && Preimage(fl, clock, r).Some? && Preimage(fl, clock, r) == Preimage(fl, clock, s)
    ensures Agree(fl, clock, r, s)
  {
    hide Preimage, Lawful, Printable, Canon, FormatInt;
    RecordCodec.LinkBinds(fl, clock, r, s);
    PreimageBinds(fl, clock, r, s);
  }

  lemma HashedInHead(pre: Rec -> Option<string>, sha: string -> string, window: nat, a: seq<Rec>, head: Rec, r: Rec)
    requires window > 0 && Head(Hashing(pre, sha), window, a, head) && r in a
    ensures pre(r).Some?
  {
    hide Acceptable;
    HeadLast(Hashing(pre, sha), window, a, head);
    ChainLaws.PassedLines(Hashing(pre, sha), window, WHOLE, a, r);
  }

  /** A clean assessment is containment of content: the mirror's records are a
      contiguous run of the table's and say the same in every field, unless two of
      them exhibit a collision of the hash. */
  lemma MirrorContained(fl: Floats, clock: Clock, sha: string -> string, window: nat,
      pruned: Option<Anchor>, minted: bool, db: seq<Rec>, opts: Opts, rs: seq<Rec>) returns (lo: nat)
    requires Lawful(fl) && window > 0 && ChainScan.Ascending(db)
    requires (forall d | d in db :: d.seqNo >= 1) && forall r | r in rs :: r.seqNo >= 1
    requires var h := Hashing(Preimages(fl, clock), sha);
      Assess(h, window, pruned, minted, db, opts, Items(rs)).OK() && !Collision(Preimages(fl, clock), sha, db, rs)
    ensures Acceptable(Hashing(Preimages(fl, clock), sha), window, opts, rs)
    ensures lo + |Chain(rs)| <= |db|
    ensures forall i | 0 <= i < |Chain(rs)| ::
      db[lo + i].seqNo == Chain(rs)[i].seqNo && Agree(fl, clock, db[lo + i], Chain(rs)[i])
  {
    hide Lawful, Collision, Acceptable, Compare, Verify, Agree, Preimages, Contiguous, Firsts, Chain, Assess, Assessment.OK;
    var h := Hashing(Preimages(fl, clock), sha);
    Assessed(h, window, pruned, minted, db, opts, rs);
    VerifyExact(h, window, db, ChainScan.RowsOpen(pruned));
    VerifyExact(h, window, rs, opts);
    lo := MirrorSegment(h, window, pruned, minted, db, opts, rs);
    ChainOfRows(h, window, opts, rs);
    forall i | 0 <= i < |Chain(rs)|
      ensures db[lo + i].seqNo == Chain(rs)[i].seqNo && Agree(fl, clock, db[lo + i], Chain(rs)[i])
    {
      var r, s := db[lo + i], Chain(rs)[i];
      assert r in db && s in Chain(rs);
      RowsAgree(fl, clock, sha, window, ChainScan.RowsOpen(pruned), db, opts, rs, r, s);
    }
  }

  lemma Assessed(h: Hasher, window: nat, pruned: Option<Anchor>, minted: bool, db: seq<Rec>, opts: Opts, rs: seq<Rec>)
    requires Assess(h, window, pruned, minted, db, opts, Items(rs)).OK()
    ensures Verify(h, window, Items(db), ChainScan.RowsOpen(pruned)).OK() && Verify(h, window, Items(rs), opts).OK()
  {
    hide Verify, Compare;
  }

  lemma ChainOfRows(h: Hasher, window: nat, opts: Opts, rs: seq<Rec>)
    requires window > 0 && Acceptable(h, window, opts, rs)
    ensures rs != [] ==> Firsts(rs) != map[] && Contiguous(Firsts(rs), Min(Firsts(rs).Keys))
    ensures forall s | s in Chain(rs) :: s in rs
  {
    ChainIn(rs);
  }

  lemma RowsAgree(fl: Floats, clock: Clock, sha: string -> string, window: nat,
      dbOpts: Opts, db: seq<Rec>, opts: Opts, rs: seq<Rec>, r: Rec, s: Rec)
    requires Lawful(fl) && window > 0 && r in db && s in rs && r.hash == s.hash
    requires var h := Hashing(Preimages(fl, clock), sha);
      Acceptable(h, window, dbOpts, db) && Acceptable(h, window, opts, rs)
    requires !Collision(Preimages(fl, clock), sha, db, rs)
    ensures Agree(fl, clock, r, s)
  {
    hide Lawful, Agree, Collision, Acceptable, Preimages;
    var h := Hashing(Preimages(fl, clock), sha);
    ChainLaws.PassedLines(h, window, dbOpts, db, r);
    ChainLaws.PassedLines(h, window, opts, rs, s);
    SameBytes(fl, clock, sha, db, rs, r, s);
  }

  /** Lines of one hash agree, unless they are a collision. */
  lemma SameBytes(fl: Floats, clock: Clock, sha: string -> string, a: seq<Rec>, b: seq<Rec>, r: Rec, s: Rec)
    requires Lawful(fl) && r in a && s in b && r.hash == s.hash
    requires !Collision(Preimages(fl, clock), sha, a, b)
    requires var h := Hashing(Preimages(fl, clock), sha); h(r) == Some(r.hash) && h(s) == Some(s.hash)
    ensures Agree(fl, clock, r, s)
  {
    hide Lawful, Agree, Preimage, Collision;
    NoCollide(Preimages(fl, clock), sha, a, b, r, s);
    Agreeing(fl, clock, r, s);
  }

  // ---------------------------------------------------------------------
  // The mirror of a run.

  /** A hash is never the empty string. */
  ghost predicate Nonempty(sha: string -> string) {
    forall t :: sha(t) != ""
  }

  lemma CanonicallyLawful(fl: Floats, clock: Clock, sha: string -> string)
    requires Lawful(fl) && Nonempty(sha)
    ensures HashBlind(Canonically(fl, clock, sha)) && Printed(Canonically(fl, clock, sha))
  {
    hide Lawful, Hashed, Print, Validate;
    var c := Canonically(fl, clock, sha);
    forall r: Rec, h: string ensures c.hasher(r.(hash := h)) == c.hasher(r) && c.valid(r.(hash := h)) == c.valid(r) {
      SameHashed(clock, r, h);
    }
    forall r | c.hasher(r) == Some(r.hash) ensures c.line(r).Some? {
      HashedPrints(fl, clock, r);
    }
  }

  lemma SameHashed(clock: Clock, r: Rec, h: string)
    ensures Hashed(clock, r.(hash := h)) == Hashed(clock, r)
    ensures Validate(clock, r.(hash := h)) == Validate(clock, r)
  {
  }

  lemma HashedPrints(fl: Floats, clock: Clock, r: Rec)
    requires Lawful(fl) && Preimage(fl, clock, r).Some? && r.hash != ""
    ensures RecordCodec.Line(fl, clock, r).Some?
  {
    hide Lawful, Hashed, Print;
    var h := Hashed(clock, r);
    var m := Members(clock, r);
    forall k | k in m ensures Printable(fl, m[k]) {
      assert k == "hash" || (k in h && m[k] == h[k] && Printable(fl, h[k]));
    }
  }

  /** What a record needs to survive its line: every double in its detail is one, and its
      time is read back as itself. */
  ghost predicate Fit(fl: Floats, clock: Clock, detail: map<string, Json>, ts: int) {
    Representable(fl, Obj(detail)) && Retime(clock, ts) == Some(ts)
  }

  ghost predicate CallFit<S(!new)>(fl: Floats, clock: Clock, c: Call<S>) {
    Retime(clock, c.now) == Some(c.now) && forall s :: Fit(fl, clock, c.body(s).detail, c.now)
  }

  ghost predicate RowsFit(fl: Floats, clock: Clock, rows: seq<Rec>) {
    forall r | r in rows :: Fit(fl, clock, r.body.detail, r.ts) && r.body.v == VERSION
  }

  ghost predicate FlightFit<S(!new)>(fl: Floats, clock: Clock, x: Flight<S>) {
    CallFit(fl, clock, x.call) && (x.stage.Recording? ==> Fit(fl, clock, x.stage.e.detail, x.stage.e.ts))
  }

  ghost predicate PlantFit<S(!new)>(fl: Floats, clock: Clock, p: Plant<S>) {
    RowsFit(fl, clock, p.w.db.rows) && forall j | 0 <= j < |p.flights| :: FlightFit(fl, clock, p.flights[j])
  }

  lemma EntryFit(fl: Floats, clock: Clock, now: int, req: Request, outcome: Outcome, detail: map<string, Json>,
      err: Option<string>)
    requires Fit(fl, clock, detail, now)
    ensures var e := EntryOf(now, req, outcome, detail, err); Fit(fl, clock, e.detail, e.ts)
  {
  }

  lemma EmptyFit(fl: Floats, clock: Clock, now: int)
    requires Retime(clock, now) == Some(now)
    ensures Fit(fl, clock, map[], now)
  {
  }

  lemma AppendFit<S>(fl: Floats, clock: Clock, c: Codec, db: Db<S>, mint: string, e: Entry, inserted: bool)
    requires RowsFit(fl, clock, db.rows) && Fit(fl, clock, e.detail, e.ts)
    requires AppendTx(c, db, mint, e, inserted).Some?
    ensures RowsFit(fl, clock, AppendTx(c, db, mint, e, inserted).value.rows)
  {
    hide Fit;
  }

  lemma RecordsFit<S>(fl: Floats, clock: Clock, u: Setup, w: World<S>, e: Entry, f: Fate, errors: set<Fault>)
    requires RowsFit(fl, clock, w.db.rows) && Fit(fl, clock, e.detail, e.ts)
    ensures var (v, stage) := Records(u, w, e, f, errors); RowsFit(fl, clock, v.db.rows) && !stage.Recording?
  {
    hide Fit, RowsFit, AppendTx;
    if Append(u, w, e, f).Some? {
      AppendFit(fl, clock, u.codec, w.db, f.mint, e, f.recorded);
    }
  }

  lemma AttemptsFit<S(!new)>(fl: Floats, clock: Clock, u: Setup, w: World<S>, c: Call<S>)
    requires RowsFit(fl, clock, w.db.rows) && CallFit(fl, clock, c)
    ensures var (v, stage) := Attempts(u, w, c);
      RowsFit(fl, clock, v.db.rows) && FlightFit(fl, clock, Flight(c, stage))
  {
    hide Fit, RowsFit, AppendTx, EntryOf;
    if c.fate.begun {
      var a := c.body(w.db.state);
      assert Fit(fl, clock, a.detail, c.now);
      if Transact(u, w.db, c.now, c.req, a, c.fate).Some? {
        var text := if a.err.Some? then Some(a.err.value.text) else None;
        EntryFit(fl, clock, c.now, c.req, OutcomeOf(a.err), a.detail, text);
        AppendFit(fl, clock, u.codec, w.db.(state := a.state), c.fate.mint,
                  EntryOf(c.now, c.req, OutcomeOf(a.err), a.detail, text), c.fate.inserted);
      } else if a.err.Some? {
        var (text, errors) := Cause(a.err.value, c.fate.why);
        EntryFit(fl, clock, c.now, c.req, OutcomeOf(a.err), a.detail, Some(text));
      }
    }
  }

  lemma AdvanceFit<S(!new)>(fl: Floats, clock: Clock, u: Setup, w: World<S>, x: Flight<S>)
    requires RowsFit(fl, clock, w.db.rows) && FlightFit(fl, clock, x)
    ensures var (v, stage) := Advance(u, w, x);
      RowsFit(fl, clock, v.db.rows) && FlightFit(fl, clock, x.(stage := stage))
  {
    hide Fit, RowsFit, Records, Attempts, EntryOf;
    var c := x.call;
    match x.stage
    case Refusing =>
      EmptyFit(fl, clock, c.now);
      EntryFit(fl, clock, c.now, c.req, Failure, map[], Some(c.fate.why));
      RecordsFit(fl, clock, u, w, EntryOf(c.now, c.req, Failure, map[], Some(c.fate.why)), c.fate, {Fault.Refused});
    case Running => AttemptsFit(fl, clock, u, w, c);
    case Recording(e, errors) => RecordsFit(fl, clock, u, w, e, c.fate, errors);
    case Emitting(r, k, told, errors) =>
    case Done(_) =>
  }

  lemma DoFit<S(!new)>(fl: Floats, clock: Clock, u: Setup, p: Plant<S>, e: Event<S>)
    requires PlantFit(fl, clock, p) && (e.Enter? ==> CallFit(fl, clock, e.call))
    ensures PlantFit(fl, clock, Do(u, p, e))
  {
    hide RowsFit, CallFit, Advance;
    if e.Move? && e.i < |p.flights| {
      AdvanceFit(fl, clock, u, p.w, p.flights[e.i]);
    }
  }

  lemma {:induction false} OverlapFit<S(!new)>(fl: Floats, clock: Clock, u: Setup, state: S, es: seq<Event<S>>)
    requires forall k | 0 <= k < |es| && es[k].Enter? :: CallFit(fl, clock, es[k].call)
    ensures PlantFit(fl, clock, Overlap(u, state, es))
    decreases |es|
  {
    if es == [] {
    } else {
      hide PlantFit, CallFit, Do;
      OverlapFit(fl, clock, u, state, es[..|es| - 1]);
      DoFit(fl, clock, u, Overlap(u, state, es[..|es| - 1]), es[|es| - 1]);
    }
  }

  /** The mirror file read back, line by line. */
  ghost function ReadMirror(fl: Floats, clock: Clock, lines: seq<(int, string)>): seq<Item>
    requires Lawful(fl)
  {
    seq(|lines|, i requires 0 <= i < |lines| =>
      match ParseLine(fl, clock, lines[i].1) case Some(r) => ChainVerify.Line(r) case None => Damage)
  }

  /** The rows as a reader of their lines sees them. */
  ghost function ReadBack(fl: Floats, rows: seq<Rec>): seq<Rec>
    requires Lawful(fl) && forall k | 0 <= k < |rows| ::
      Printable(fl, Obj(rows[k].body.detail)) && Canon(fl, Obj(rows[k].body.detail)).Obj?
  {
    seq(|rows|, k requires 0 <= k < |rows| =>
      rows[k].(body := rows[k].body.(detail := Canon(fl, Obj(rows[k].body.detail)).members)))
  }

  lemma RowReadBack(fl: Floats, clock: Clock, r: Rec)
    requires Lawful(fl) && SmallExact(fl) && Readable(fl, clock, r)
    ensures RecordCodec.Line(fl, clock, r).Some?
    ensures Printable(fl, Obj(r.body.detail)) && Canon(fl, Obj(r.body.detail)).Obj?
    ensures var s := r.(body := r.body.(detail := Canon(fl, Obj(r.body.detail)).members));
      && ParseLine(fl, clock, RecordCodec.Line(fl, clock, r).value) == Some(s)
      && Preimage(fl, clock, s) == Preimage(fl, clock, r) && Validate(clock, s)
  {
    hide Lawful, ParseLine, RecordCodec.Line, Preimage, Representable, SmallExact, Reread, Retime, Printable, Canon;
    HashedPrints(fl, clock, r);
    SmallRoundTrip(fl, clock, r);
    LineRoundTrip(fl, clock, r);
  }

  /** A row of a run, as the mirror needs it. */
  ghost predicate Readable(fl: Floats, clock: Clock, r: Rec)
    requires Lawful(fl)
  {
    && Validate(clock, r) && Preimage(fl, clock, r).Some? && r.hash != ""
    && Fit(fl, clock, r.body.detail, r.ts) && r.seqNo <= EXACT_BOUND && r.body.v <= EXACT_BOUND
  }

  ghost predicate AllReadable(fl: Floats, clock: Clock, rows: seq<Rec>)
    requires Lawful(fl)
  {
    forall k | 0 <= k < |rows| :: Readable(fl, clock, rows[k])
  }

  lemma LinkedReadable<S>(fl: Floats, clock: Clock, sha: string -> string, db: Db<S>)
    requires Lawful(fl) && Nonempty(sha) && Linked(Canonically(fl, clock, sha), db)
    requires RowsFit(fl, clock, db.rows) && |db.rows| <= EXACT_BOUND
    ensures AllReadable(fl, clock, db.rows)
  {
    hide Lawful, Preimage, Validate, Fit;
    forall k | 0 <= k < |db.rows| ensures Readable(fl, clock, db.rows[k]) {
      assert LinkedAt(Canonically(fl, clock, sha), db, k);
      assert db.rows[k] in db.rows;
    }
  }

  /** rows in the order the lines name them. */
  function Arrived(rows: seq<Rec>, lines: seq<(int, string)>): (rs: seq<Rec>)
    requires forall p | 0 <= p < |lines| :: 1 <= lines[p].0 <= |rows|
  {
    seq(|lines|, p requires 0 <= p < |lines| => rows[lines[p].0 - 1])
  }

  lemma ReadBackRows(fl: Floats, clock: Clock, rows: seq<Rec>)
    requires Lawful(fl) && SmallExact(fl) && AllReadable(fl, clock, rows)
    ensures forall k | 0 <= k < |rows| ::
      Printable(fl, Obj(rows[k].body.detail)) && Canon(fl, Obj(rows[k].body.detail)).Obj?
    ensures var read := ReadBack(fl, rows);
      forall k | 0 <= k < |rows| ::
        && Preimage(fl, clock, read[k]) == Preimage(fl, clock, rows[k]) && Validate(clock, read[k])
        && RecordCodec.Line(fl, clock, rows[k]).Some?
        && ParseLine(fl, clock, RecordCodec.Line(fl, clock, rows[k]).value) == Some(read[k])
  {
    hide Lawful, Preimage, Validate, ParseLine, Printable, Canon, SmallExact, RecordCodec.Line, Readable;
    forall k | 0 <= k < |rows|
      ensures Printable(fl, Obj(rows[k].body.detail)) && Canon(fl, Obj(rows[k].body.detail)).Obj?
      ensures var s := rows[k].(body := rows[k].body.(detail := Canon(fl, Obj(rows[k].body.detail)).members));
        && RecordCodec.Line(fl, clock, rows[k]).Some?
        && ParseLine(fl, clock, RecordCodec.Line(fl, clock, rows[k]).value) == Some(s)
        && Preimage(fl, clock, s) == Preimage(fl, clock, rows[k]) && Validate(clock, s)
    {
      RowReadBack(fl, clock, rows[k]);
    }
  }

  lemma LinkedReadBack<S>(fl: Floats, clock: Clock, sha: string -> string, db: Db<S>, read: Db<S>)
    requires Lawful(fl) && Linked(Canonically(fl, clock, sha), db) && |read.rows| == |db.rows|
    requires read.install == db.install
    requires forall k | 0 <= k < |db.rows| ::
      && Preimage(fl, clock, read.rows[k]) == Preimage(fl, clock, db.rows[k]) && Validate(clock, read.rows[k])
      && read.rows[k].(body := db.rows[k].body) == db.rows[k]
    ensures Linked(Canonically(fl, clock, sha), read)
    ensures AuditChain.Clean(read.rows) == AuditChain.Clean(db.rows)
  {
    hide Lawful, Preimage, Validate;
    var c := Canonically(fl, clock, sha);
    forall k | 0 <= k < |db.rows| ensures LinkedAt(c, read, k) {
      assert LinkedAt(c, db, k);
      assert read.rows[k].hash == db.rows[k].hash && read.rows[k].prevHash == db.rows[k].prevHash;
      if k > 0 {
        assert read.rows[k - 1].hash == db.rows[k - 1].hash;
      }
    }
    SameWarnings(read.rows, db.rows);
  }

  lemma {:induction false} SameWarnings(a: seq<Rec>, b: seq<Rec>)
    requires |a| == |b| && forall k | 0 <= k < |a| :: a[k].ts == b[k].ts && a[k].seqNo == b[k].seqNo
    ensures Warnings(a) == Warnings(b)
    decreases |a|
  {
    if |a| > 1 {
      SameWarnings(a[..|a| - 1], b[..|b| - 1]);
    }
  }

  /** Every row is in lines, once, and nothing else is. */
  ghost predicate Gathers<S>(u: Setup, db: Db<S>, lines: seq<(int, string)>) {
    && AuditOverlap.OnlyRows(u, db.rows, lines)
    && forall n | 1 <= n <= |db.rows| :: AuditOverlap.Holds(lines, n)
  }

  /** The lines read back are the rows read back, in the order they were sent. */
  lemma MirrorReads<S>(fl: Floats, clock: Clock, sha: string -> string, u: Setup, db: Db<S>, lines: seq<(int, string)>)
      returns (read: seq<Rec>)
    requires Lawful(fl) && SmallExact(fl) && u.codec == Canonically(fl, clock, sha) && AllReadable(fl, clock, db.rows)
    requires Linked(u.codec, db) && AuditOverlap.OnlyRows(u, db.rows, lines)
    ensures |read| == |db.rows| && (forall p | 0 <= p < |lines| :: 1 <= lines[p].0 <= |db.rows|)
    ensures ReadMirror(fl, clock, lines) == Items(Arrived(read, lines))
    ensures Linked(u.codec, db.(rows := read)) && AuditChain.Clean(read) == AuditChain.Clean(db.rows)
    ensures forall k | 0 <= k < |read| :: read[k].seqNo == db.rows[k].seqNo && read[k].hash == db.rows[k].hash
  {
    hide Lawful, Preimage, Validate, ParseLine, Printable, Canon, SmallExact, RecordCodec.Line, Linked, AllReadable;
    ReadBackRows(fl, clock, db.rows);
    read := ReadBack(fl, db.rows);
    LinkedReadBack(fl, clock, sha, db, db.(rows := read));
    LinesRead(fl, clock, sha, u, db.rows, read, lines);
  }

  lemma CanonicalLine(fl: Floats, clock: Clock, sha: string -> string, r: Rec)
    requires Lawful(fl)
    ensures Canonically(fl, clock, sha).line(r) == RecordCodec.Line(fl, clock, r)
  {
    hide Lawful, RecordCodec.Line;
  }

  lemma LinesRead(fl: Floats, clock: Clock, sha: string -> string, u: Setup, rows: seq<Rec>, read: seq<Rec>,
      lines: seq<(int, string)>)
    requires Lawful(fl) && u.codec == Canonically(fl, clock, sha) && AuditOverlap.OnlyRows(u, rows, lines)
    requires |read| == |rows| && forall k | 0 <= k < |rows| && RecordCodec.Line(fl, clock, rows[k]).Some? ::
      ParseLine(fl, clock, RecordCodec.Line(fl, clock, rows[k]).value) == Some(read[k])
    ensures forall p | 0 <= p < |lines| :: 1 <= lines[p].0 <= |rows|
    ensures ReadMirror(fl, clock, lines) == Items(Arrived(read, lines))
  {
    hide Lawful, ParseLine, RecordCodec.Line, Canonically;
    forall r ensures u.codec.line(r) == RecordCodec.Line(fl, clock, r) {
      CanonicalLine(fl, clock, sha, r);
    }
    forall p | 0 <= p < |lines|
      ensures 1 <= lines[p].0 <= |rows| && ReadMirror(fl, clock, lines)[p] == ChainVerify.Line(read[lines[p].0 - 1])
    {
      assert AuditRuns.IsRow(u, rows, lines[p]);
    }
  }

  /** What holds every row once is a shuffle of the rows. */
  lemma GathersShuffles<S>(u: Setup, db: Db<S>, read: seq<Rec>, lines: seq<(int, string)>)
    requires Gathers(u, db, lines) && |read| == |db.rows| && forall k | 0 <= k < |read| :: read[k].seqNo == k + 1
    ensures forall p | 0 <= p < |lines| :: 1 <= lines[p].0 <= |read|
    ensures ChainDisorder.Shuffles(Arrived(read, lines), read)
  {
    forall p | 0 <= p < |lines| ensures 1 <= lines[p].0 <= |read| {
      assert AuditRuns.IsRow(u, db.rows, lines[p]);
    }
    var rs := Arrived(read, lines);
    forall r ensures r in rs <==> r in read {
      if r in read {
        var k :| 0 <= k < |read| && read[k] == r;
        assert AuditOverlap.Holds(lines, k + 1);
        var p :| 0 <= p < |lines| && lines[p].0 == k + 1;
        assert rs[p] == r;
      }
    }
    ChainDisorder.DistinctShuffles(rs, read);
  }

  /** No line stands a window or more behind its rank. */
  predicate InStep(window: nat, lines: seq<(int, string)>) {
    forall p | 0 <= p < |lines| :: p < window + (lines[p].0 - 1)
  }

  /** Every row once, in any order, is passed exactly while it keeps in step. */
  lemma ShuffledRows<S>(u: Setup, window: nat, db: Db<S>, read: seq<Rec>, lines: seq<(int, string)>)
    requires window > 0 && Gathers(u, db, lines) && |read| == |db.rows| && Linked(u.codec, db.(rows := read))
    ensures forall p | 0 <= p < |lines| :: 1 <= lines[p].0 <= |read|
    ensures var res := Verify(u.codec.hasher, window, Items(Arrived(read, lines)), WHOLE);
      (res.OK() <==> InStep(window, lines)) && (res.OK() ==> res == AuditChain.Clean(read))
  {
    hide Verify;
    var c := u.codec;
    forall k | 0 <= k < |read| ensures read[k].seqNo == k + 1 {
      assert LinkedAt(c, db.(rows := read), k);
    }
    GathersShuffles(u, db, read, lines);
    AppendsVerify(c, db.(rows := read), window);
    if read == [] {
      ChainDisorder.ShuffleMembers(Arrived(read, lines), read);
      assert Arrived(read, lines) == read;
    } else {
      forall i | 0 <= i < |read| ensures Sound(c.hasher, read, i) {
        assert LinkedAt(c, db.(rows := read), i);
        assert i > 0 ==> LinkedAt(c, db.(rows := read), i - 1);
      }
      assert LinkedAt(c, db.(rows := read), 0);
      var rs := Arrived(read, lines);
      ChainDisorder.DisorderExact(c.hasher, window, WHOLE, rs, read);
      assert forall p | 0 <= p < |lines| :: rs[p].seqNo == lines[p].0;
      assert InStep(window, lines) <==> forall p | 0 <= p < |rs| :: p < window + (rs[p].seqNo - read[0].seqNo);
    }
  }

  /** The table and its rows read back are of one install, and the lines are the rows'. */
  lemma ShuffledPair<S>(u: Setup, window: nat, db: Db<S>, read: seq<Rec>, lines: seq<(int, string)>)
    requires window > 0 && Gathers(u, db, lines) && |read| == |db.rows|
    requires Linked(u.codec, db) && Linked(u.codec, db.(rows := read))
    requires forall r | u.codec.valid(r) :: r.install != ""
    requires forall k | 0 <= k < |read| :: read[k].seqNo == db.rows[k].seqNo && read[k].hash == db.rows[k].hash
    ensures forall p | 0 <= p < |lines| :: 1 <= lines[p].0 <= |read|
    ensures Assess(u.codec.hasher, window, None, db.install.Some?, db.rows, WHOLE, Items(Arrived(read, lines))).OK() <==>
            InStep(window, lines)
  {
    hide Verify, Compare, Linked, Gathers, InStep, Within, ChainScan.Ascending, SameInstall, HashedApart;
    ShuffledRows(u, window, db, read, lines);
    AppendsVerify(u.codec, db, window);
    LinkedRows(u.codec, db);
    ArrivedWithin(u.codec, db, read, lines);
    if InStep(window, lines) {
      AssessmentExact(u.codec.hasher, window, None, db.install.Some?, db.rows, WHOLE, Arrived(read, lines));
    }
  }

  lemma LinkedRows<S>(c: Codec, db: Db<S>)
    requires Linked(c, db) && forall r | c.valid(r) :: r.install != ""
    ensures ChainScan.Ascending(db.rows) && (forall d | d in db.rows :: d.seqNo >= 1)
    ensures forall k | 0 <= k < |db.rows| ::
      db.rows[k].seqNo == k + 1 && db.install == Some(db.rows[k].install) && db.rows[k].install != ""
  {
    forall k | 0 <= k < |db.rows| ensures db.rows[k].seqNo == k + 1
      && db.install == Some(db.rows[k].install) && db.rows[k].install != ""
    {
      assert LinkedAt(c, db, k);
    }
  }

  lemma ArrivedWithin<S>(c: Codec, db: Db<S>, read: seq<Rec>, lines: seq<(int, string)>)
    requires |read| == |db.rows| && forall p | 0 <= p < |lines| :: 1 <= lines[p].0 <= |read|
    requires Linked(c, db) && Linked(c, db.(rows := read)) && forall r | c.valid(r) :: r.install != ""
    requires forall k | 0 <= k < |read| :: read[k].seqNo == db.rows[k].seqNo && read[k].hash == db.rows[k].hash
    ensures var rs := Arrived(read, lines);
      && Within(rs, db.rows) && SameInstall(db.rows, rs) && HashedApart(c.hasher, rs) && forall r | r in rs :: r.seqNo >= 1
  {
    hide Linked;
    LinkedRows(c, db);
    LinkedRows(c, db.(rows := read));
    var rs := Arrived(read, lines);
    forall r | r in rs ensures r.seqNo >= 1 && db.install == Some(r.install)
      && exists d :: d in db.rows && d.seqNo == r.seqNo && d.hash == r.hash
    {
      var p :| 0 <= p < |rs| && rs[p] == r;
      assert db.rows[lines[p].0 - 1] in db.rows;
    }
    assert rs != [] ==> rs[0] in rs;
  }

  /** A sink that was given every record after any interleaving holds every row once. */
  lemma Delivered<S>(u: Setup, state: S, es: seq<Event<S>>, i: nat)
    requires HashBlind(u.codec) && Printed(u.codec) && i < |u.sinks|
    requires forall k | 0 <= k < |es| && es[k].Enter? :: es[k].call.fate.takes(i)
    requires AuditOverlap.Answered(Overlap(u, state, es))
    ensures var w := Overlap(u, state, es).w;
      i < |w.sent| && Linked(u.codec, w.db) && Gathers(u, w.db, w.sent[i])
  {
    hide Linked, HashBlind, Printed, AuditOverlap.OnlyRows, AuditOverlap.Answered, AuditOverlap.Holds, Overlap;
    AuditOverlap.OverlapKeeps(u, state, es);
    AuditOverlap.OverlapCovers(u, state, es, i);
    AuditOverlap.AllIn(u, Overlap(u, state, es), i);
  }

  /** Lines that ascend are in step. */
  lemma {:induction false} AscendingInStep(lines: seq<(int, string)>, p: nat)
    requires AuditOrder.Ascends(lines) && p < |lines| && lines[0].0 >= 1
    ensures lines[p].0 >= p + 1
  {
    if p > 0 {
      AscendingInStep(lines, p - 1);
    }
  }

  lemma Straight<S>(u: Setup, state: S, es: seq<Event<S>>, window: nat, i: nat)
    requires HashBlind(u.codec) && window > 0 && i < |u.sinks| && AuditOrder.NoneOvertakes(u, state, es, i)
    ensures var w := Overlap(u, state, es).w; i < |w.sent| && InStep(window, w.sent[i])
  {
    hide Linked, HashBlind, Overlap, AuditOrder.NoneOvertakes;
    AuditOverlap.OverlapKeeps(u, state, es);
    AuditOrder.KeepsOrder(u, state, es, i);
    var w := Overlap(u, state, es).w;
    var lines := w.sent[i];
    assert AuditOverlap.OnlyRows(u, w.db.rows, lines);
    forall p | 0 <= p < |lines| ensures p < window + (lines[p].0 - 1) {
      assert AuditRuns.IsRow(u, w.db.rows, lines[0]);
      AscendingInStep(lines, p);
    }
  }

  /** The whole loop closes. After any interleaving of audited calls, refused and failed
      ones included, once each is answered, a mirror whose sink took every record reads
      back to a file the verifier passes from genesis exactly when no line stands a
      window or more behind its rank, as none does when no record was overtaken; the
      verdict is then the one the table itself gets, and the pair assessed together is
      clean. */
  lemma MirrorVerifies<S(!new)>(fl: Floats, clock: Clock, sha: string -> string, sinks: seq<string>, block: bool,
      state: S, es: seq<Event<S>>, window: nat, i: nat)
    requires Lawful(fl) && SmallExact(fl) && Nonempty(sha) && window > 0 && i < |sinks|
    requires forall k | 0 <= k < |es| && es[k].Enter? :: CallFit(fl, clock, es[k].call) && es[k].call.fate.takes(i)
    requires var p := Overlap(Setup(Canonically(fl, clock, sha), sinks, block), state, es);
      AuditOverlap.Answered(p) && |p.w.db.rows| <= EXACT_BOUND
    ensures var u := Setup(Canonically(fl, clock, sha), sinks, block);
      var w := Overlap(u, state, es).w;
      && i < |w.sent|
      && var file := ReadMirror(fl, clock, w.sent[i]);
      && ChainScan.VerifyRows(u.codec.hasher, window, Items(w.db.rows), None, w.db.install.Some?) == AuditChain.Clean(w.db.rows)
      && (Verify(u.codec.hasher, window, file, WHOLE).OK() <==> InStep(window, w.sent[i]))
      && (InStep(window, w.sent[i]) ==> Verify(u.codec.hasher, window, file, WHOLE) == AuditChain.Clean(w.db.rows))
      && (Assess(u.codec.hasher, window, None, w.db.install.Some?, w.db.rows, WHOLE, file).OK() <==> InStep(window, w.sent[i]))
      && (AuditOrder.NoneOvertakes(u, state, es, i) ==> InStep(window, w.sent[i]))
  {
    hide Lawful, SmallExact, Nonempty, CallFit, Verify, Assess, Overlap, HashBlind, Printed, RowsFit, AllReadable,
      Linked, Gathers, ReadMirror, Assessment.OK, InStep, AuditOverlap.Answered, AuditOrder.NoneOvertakes;
    var c := Canonically(fl, clock, sha);
    var u := Setup(c, sinks, block);
    var w := Overlap(u, state, es).w;
    CanonicallyLawful(fl, clock, sha);
    Delivered(u, state, es, i);
    OverlapFit(fl, clock, u, state, es);
    LinkedReadable(fl, clock, sha, w.db);
    OnlyGathered(u, w.db, w.sent[i]);
    var read := MirrorReads(fl, clock, sha, u, w.db, w.sent[i]);
    AppendsVerify(c, w.db, window);
    ShuffledRows(u, window, w.db, read, w.sent[i]);
    ShuffledPair(u, window, w.db, read, w.sent[i]);
    if AuditOrder.NoneOvertakes(u, state, es, i) {
      Straight(u, state, es, window, i);
    }
  }

  lemma OnlyGathered<S>(u: Setup, db: Db<S>, lines: seq<(int, string)>)
    requires Gathers(u, db, lines)
    ensures AuditOverlap.OnlyRows(u, db.rows, lines)
  {
  }
}
