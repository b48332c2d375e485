/** One audit record, as the chain sees it. */
module AuditRecord {
  import opened Prelude
  import opened JsonValue

  datatype Actor = Actor(id: string, how: string, session: string)
  datatype Source = Source(ip: string, version: string)
  datatype Target = Target(kind: string, id: string)
  datatype Outcome = Success | Failure | Partial

  /** Everything a record carries besides what links it into a chain. */
  datatype Body = Body(
    v: int,
    actor: Actor,
    source: Source,
    action: string,
    target: Option<Target>,
    intentHash: string,
    justification: string,
    outcome: string,
    detail: map<string, Json>)

  /** ts is a count of milliseconds; only its order matters to the chain. */
  datatype Rec = Rec(
    install: string,
    seqNo: int,
    ts: int,
    prevHash: string,
    hash: string,
    body: Body)

  /** What a record should hash to, or None when it cannot be encoded. */
  type Hasher = Rec -> Option<string>

  const GENESIS: string := "0000000000000000000000000000000000000000000000000000000000000000"
}
