/** What travels between servers during a database sync. */
module SyncWire {

  datatype Option<+T> = None | Some(value: T)

  datatype Table = ServerNode | ServerScoreReport | ServerScoreAggregate | User | DirectMessage

  function TableName(table: Table): string {
    match table
    case ServerNode => "server_node"
    case ServerScoreReport => "server_score_report"
    case ServerScoreAggregate => "server_score_aggregate"
    case User => "user"
    case DirectMessage => "direct_message"
  }

  /** A server never hands out more rows than this at once. */
  const LARGEST_PAGE: nat := 1000

  /** Timestamps are milliseconds: the ISO text on the wire and the stored date name the same instant. */
  datatype Payload =
    | AggregatePayload(lastReportAt: int, meanScore: real, reportCount: int, targetPeerId: string, updatedAt: int)
    | OtherPayload(json: string)

  datatype Envelope =
    Envelope(canonicalHash: string, payload: Payload, primaryKey: string, table: Table, updatedAt: int)

  lemma TableNames(a: Table, b: Table)
    ensures ':' !in TableName(a)
    ensures TableName(a) == TableName(b) ==> a == b
  {
    assert |TableName(a)| == match a
      case ServerNode => 11 case ServerScoreReport => 19 case ServerScoreAggregate => 22
      case User => 4 case DirectMessage => 14;
    assert |TableName(b)| == match b
      case ServerNode => 11 case ServerScoreReport => 19 case ServerScoreAggregate => 22
      case User => 4 case DirectMessage => 14;
  }
}
