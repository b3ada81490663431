// What the cache protocols share: key lookups, pub/sub connections and the phases of a
// writer's invalidation.
module Levels {
  import opened Wrappers
  import opened ConfigStore

  // A pub/sub connection: up, broken with the receive error still to be handled, or cleared,
  // when the handler has flushed the local caches and reconnects. What is published in the
  // meantime is lost; only a receive error flushes, a reconnection does not.
  datatype Link = Up | Broken | Cleared

  // What a writer does next after its database write.
  datatype Phase = DeleteOwn | DeleteShared | Announce

  function Get(rows: map<ConfigKey, Row>, key: ConfigKey): Option<Row> {
    if key in rows then Some(rows[key]) else None
  }

  function Put(rows: map<ConfigKey, Row>, key: ConfigKey, row: Option<Row>): map<ConfigKey, Row> {
    match row
    case None => rows - {key}
    case Some(r) => rows[key := r]
  }
}
