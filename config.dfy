/**
 * The engine's configuration: the table mapping (`schema.table` to
 * connection name, an ordered dictionary) and the JOIN rules
 * (`{"tables": [...], "key": ..., "join_type": ...}` records).
 */
module Config {
  import opened Dict

  datatype JoinRule = JoinRule(tables: seq<string>, key: string, joinType: string)

  /** `table_mapping`: qualified table name to connection name. */
  type TableMapping = seq<Entry<string, string>>

  /** The rule names the table. */
  predicate Mentions(rule: JoinRule, table: string) {
    exists k :: 0 <= k < |rule.tables| && rule.tables[k] == table
  }
}
