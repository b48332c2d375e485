/** The writer: what one audit record adds to the chain, and what any run of them is. */
module AuditChain {
  import opened Prelude
  import opened JsonValue
  import opened AuditRecord
  import opened ChainVerify
  import opened ChainExact
  import opened ChainDisorder
  import opened ChainScan
  import opened ChainFragments

  const VERSION := 1

  /** What a caller supplies: no sequence number, predecessor, installation or hash. */
  datatype Entry = Entry(
    ts: int, actor: Actor, source: Source, action: string, target: Option<Target>,
    intentHash: string, justification: string, outcome: Outcome, detail: map<string, Json>)

  /** How records are hashed, checked and printed. */
  datatype Codec = Codec(hasher: Hasher, valid: Rec -> bool, line: Rec -> Option<string>)

  /** A record's hash neither covers itself nor decides whether it is well formed. */
  ghost predicate HashBlind(c: Codec) {
    forall r: Rec, h: string :: c.hasher(r.(hash := h)) == c.hasher(r) && c.valid(r.(hash := h)) == c.valid(r)
  }

  /** The database a transaction sees: the application's state, the audit rows in
      key order, and the installation's identifier once it is minted. */
  datatype Db<S> = Db(state: S, rows: seq<Rec>, install: Option<string>)

  function OutcomeText(o: Outcome): (s: string)
    ensures o.Success? <==> s == "success"
    ensures o.Failure? <==> s == "failure"
    ensures o.Partial? <==> s == "partial"
  {
    match o
    case Success => "success"
    case Failure => "failure"
    case Partial => "partial"
  }

  function Tail(rows: seq<Rec>): (int, string) {
    if rows == [] then (0, GENESIS) else (rows[|rows| - 1].seqNo, rows[|rows| - 1].hash)
  }

  function InstallId<S>(db: Db<S>, mint: string): string {
    if db.install.Some? then db.install.value else "ins_" + mint
  }

  /** The record e becomes, before it is hashed. */
  function Draft<S>(db: Db<S>, mint: string, e: Entry): Rec {
    var (n, prev) := Tail(db.rows);
    Rec(InstallId(db, mint), n + 1, e.ts, prev, "",
        Body(VERSION, e.actor, e.source, e.action, e.target, e.intentHash, e.justification,
             OutcomeText(e.outcome), e.detail))
  }

  /** Adds e inside a transaction; None when the record is refused, cannot be
      hashed, or the row cannot be written. */
  function AppendTx<S>(c: Codec, db: Db<S>, mint: string, e: Entry, inserted: bool): (t: Option<Db<S>>)
    ensures t.Some? ==> t.value.rows != []
  {
    var d := Draft(db, mint, e);
    if !c.valid(d) || c.hasher(d).None? || !inserted then None
    else Some(db.(rows := db.rows + [d.(hash := c.hasher(d).value)], install := Some(d.install)))
  }

  /** Every row is well formed and follows the one before it, in number and in hash; and
      an installation has a row. */
  ghost predicate Linked<S>(c: Codec, db: Db<S>) {
    (db.install.Some? ==> db.rows != []) && forall i | 0 <= i < |db.rows| :: LinkedAt(c, db, i)
  }

  predicate LinkedAt<S>(c: Codec, db: Db<S>, i: nat)
    requires i < |db.rows|
  {
    && db.rows[i].seqNo == i + 1
    && db.rows[i].prevHash == (if i == 0 then GENESIS else db.rows[i - 1].hash)
    && c.hasher(db.rows[i]) == Some(db.rows[i].hash)
    && c.valid(db.rows[i])
    && db.install == Some(db.rows[i].install)
  }

  /** One append keeps the chain dense and linked, and touches nothing else. */
  lemma AppendKeeps<S>(c: Codec, db: Db<S>, mint: string, e: Entry, inserted: bool)
    requires HashBlind(c) && Linked(c, db) && AppendTx(c, db, mint, e, inserted).Some?
    ensures var t := AppendTx(c, db, mint, e, inserted).value;
      && Linked(c, t) && t.state == db.state
      && |t.rows| == |db.rows| + 1 && t.rows[..|db.rows|] == db.rows
      && t.install == Some(if db.install.Some? then db.install.value else "ins_" + mint)
  {
    var d := Draft(db, mint, e);
    var t := AppendTx(c, db, mint, e, inserted).value;
    var h := c.hasher(d).value;
    assert c.hasher(d.(hash := h)) == c.hasher(d) && c.valid(d.(hash := h)) == c.valid(d);
    assert db.rows != [] ==> LinkedAt(c, db, |db.rows| - 1);
    forall i | 0 <= i < |t.rows| ensures LinkedAt(c, t, i) {
      assert i < |db.rows| ==> LinkedAt(c, db, i);
    }
  }

  /** What the verifier says of rows that were only ever appended. */
  function Clean(rows: seq<Rec>): Result {
    if rows == [] then EMPTY
    else Result(|rows|, 1, |rows|, None, Warnings(rows), false, false, GENESIS)
  }

  /** The verifier passes every chain appends can build, from its genesis, and counts
      each append; a clock set back is reported and nothing else is. So does the
      database's own verification. */
  lemma AppendsVerify<S>(c: Codec, db: Db<S>, window: nat)
    requires window > 0 && Linked(c, db)
    ensures Verify(c.hasher, window, Items(db.rows), WHOLE) == Clean(db.rows)
    ensures VerifyRows(c.hasher, window, Items(db.rows), None, db.install.Some?) == Clean(db.rows)
  {
    hide Verify;
    var rows := db.rows;
    if rows == [] {
      VerifyExact(c.hasher, window, rows, WHOLE);
      assert Chain(rows) == [];
    } else {
      forall i | 0 <= i < |rows| ensures rows[i].seqNo == i + 1 && Sound(c.hasher, rows, i) {
        assert LinkedAt(c, db, i);
        assert i > 0 ==> LinkedAt(c, db, i - 1);
      }
      assert LinkedAt(c, db, 0);
      assert Genuine(c.hasher, WHOLE, rows);
      DisorderExact(c.hasher, window, WHOLE, rows, rows);
    }
  }
}
