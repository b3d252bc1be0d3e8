/**
 * `FDWManager.execute_query` (core/fdw_manager.py:280-475) with its four
 * steps put together: resolve the query's tables, fetch each one, merge
 * the frames, filter the result again and show missing values as `NULL`.
 */
module Engine {
  import opened Wrappers
  import opened Text
  import opened Seqs
  import opened Dict
  import opened Config
  import opened Frames
  import opened Parser
  import opened Resolver
  import opened Planner
  import opened Merger
  import opened WhereFilter

  /** The records of step 1 for the resolved names, in order of first appearance. */
  function TableInfos(mapping: TableMapping, aliases: seq<Entry<string, string>>, names: seq<string>): (r: Infos)
    requires forall k :: 0 <= k < |names| ==> names[k] in Keys(mapping)
    ensures Keys(r) == Unique(names)
  {
    var order := Unique(names);
    var r := seq(|order|, k requires 0 <= k < |order| => Entry(order[k], InfoFor(mapping, aliases, order[k])));
    assert forall k :: 0 <= k < |order| ==> Keys(r)[k] == order[k];
    r
  }

  /** Records with the same keys are the same records. */
  lemma {:induction false} RecordsDetermined(info: Infos, mapping: TableMapping, aliases: seq<Entry<string, string>>,
                                             names: seq<string>)
    requires forall k :: 0 <= k < |names| ==> names[k] in Keys(mapping)
    requires Records(info, mapping, aliases) && Keys(info) == Unique(names)
    ensures info == TableInfos(mapping, aliases, names)
  {
    var t := TableInfos(mapping, aliases, names);
    forall k | 0 <= k < |info| ensures info[k] == t[k] {
      assert Keys(info)[k] == info[k].key && Keys(t)[k] == t[k].key;
    }
  }

  lemma ResolvedAreKeys(mapping: TableMapping, order: seq<string>)
    requires ResolveAll(mapping, order).Ok?
    ensures forall k :: 0 <= k < |ResolveAll(mapping, order).value| ==> ResolveAll(mapping, order).value[k] in Keys(mapping)
  {
    ResolveAllOk(mapping, order);
  }

  /** `merged.fillna('NULL')`: no cell is missing. */
  predicate NoMissing(f: Frame) {
    forall i, j :: 0 <= i < |f.rows| && 0 <= j < |f.rows[i]| ==> f.rows[i][j].Some?
  }

  /**
   * Steps 1-4 and the finish for a parsed query whose set of tables is
   * enumerated as `order`.  Failures of steps 2 and 3 are the query's
   * execution error.
   */
  function Run(parsed: Parsed, order: seq<string>, mapping: TableMapping, config: seq<JoinRule>, fetch: Fetcher,
               query: (Frame, string) -> Option<Frame>, rename: (string, seq<string>) -> string): Result<Frame, QueryError>
  {
    match ResolveAll(mapping, order)
    case Err(e) => Err(e)
    case Ok(names) =>
      ResolvedAreKeys(mapping, order);
      var info := TableInfos(mapping, parsed.aliases, names);
      var rules := Filter(config, (rule: JoinRule) => RuleApplies(rule, Keys(info)));
      match FetchSpec(info, parsed.columns, parsed.where, rules, info, fetch)
      case Err(m) => Err(Execution(m))
      case Ok(dfs) =>
        match Merged(dfs, info, parsed.joins, rules)
        case Err(m) => Err(Execution(m))
        case Ok(merged) => Ok(FillNull(PostFiltered(merged, parsed.where, rename, query)))
  }

  /** The pipeline after parsing, step by step. */
  method RunQuery(parsed: Parsed, order: seq<string>, mapping: TableMapping, config: seq<JoinRule>, fetch: Fetcher,
                  query: (Frame, string) -> Option<Frame>, rename: (string, seq<string>) -> string)
    returns (r: Result<Frame, QueryError>)
    ensures r == Run(parsed, order, mapping, config, fetch, query, rename)
  {
    var resolved := ResolveTables(order, mapping, parsed.aliases);
    if resolved.Err? {
      return Err(resolved.error);
    }
    var info := resolved.value;
    ResolvedAreKeys(mapping, order);
    RecordsDetermined(info, mapping, parsed.aliases, ResolveAll(mapping, order).value);
    var rules := ApplicableRules(config, info);
    var fetched := FetchAll(info, parsed.columns, parsed.where, rules, fetch);
    if fetched.Err? {
      return Err(Execution(fetched.error));
    }
    var merged := MergeAll(fetched.value, info, parsed.joins, rules);
    if merged.Err? {
      return Err(Execution(merged.error));
    }
    var filtered := PostFilter(merged.value, parsed.where, rename, query);
    r := Ok(FillNull(filtered));
  }

  /** `order` lists the elements of `tables`, each once. */
  ghost predicate Enumerates(order: seq<string>, tables: set<string>) {
    && |order| == |tables|
    && (forall t :: t in tables <==> t in order)
    && (forall i, j :: 0 <= i < j < |order| ==> order[i] != order[j])
  }

  /** `for full_table in parsed['tables']`: the set's elements, each once, in an order Python does not fix. */
  method TableOrder(tables: set<string>) returns (order: seq<string>)
    ensures Enumerates(order, tables)
  {
    order := [];
    var rest := tables;
    while rest != {}
      invariant rest !! (set t | t in order) && rest + (set t | t in order) == tables
      invariant |order| + |rest| == |tables|
      invariant forall i, j :: 0 <= i < j < |order| ==> order[i] != order[j]
      decreases |rest|
    {
      var t :| t in rest;
      order := order + [t];
      rest := rest - {t};
    }
  }

  /**
   * `execute_query`: a query without `SELECT ... FROM` fails to parse;
   * otherwise the tables are taken in some order of the parsed set and the
   * result has no missing cells.
   */
  method ExecuteQuery(sql: string, mapping: TableMapping, config: seq<JoinRule>, fetch: Fetcher,
                      query: (Frame, string) -> Option<Frame>, rename: (string, seq<string>) -> string)
    returns (r: Result<Frame, QueryError>)
    ensures r == Err(ParseFailed) <==> Keywords(Normalize(sql)).None?
    ensures r.Ok? ==> NoMissing(r.value)
    // a parsed query runs the pipeline on its parse, its tables taken in some order
    ensures Keywords(Normalize(sql)).Some? ==>
      exists p, order :: ParsedFrom(sql, p) && Enumerates(order, p.tables)
                         && r == Run(p, order, mapping, config, fetch, query, rename)
  {
    var parsed := ParseSql(sql);
    if parsed.Err? {
      return Err(ParseFailed);
    }
    var order := TableOrder(parsed.value.tables);
    r := RunQuery(parsed.value, order, mapping, config, fetch, query, rename);
    RunNeverParseFailed(parsed.value, order, mapping, config, fetch, query, rename);
    assert ParsedFrom(sql, parsed.value) && Enumerates(order, parsed.value.tables);
  }

  /** Once parsed, a query fails with a resolution or an execution error, never a parse error; its result has no missing cells. */
  lemma RunNeverParseFailed(parsed: Parsed, order: seq<string>, mapping: TableMapping, config: seq<JoinRule>,
                            fetch: Fetcher, query: (Frame, string) -> Option<Frame>, rename: (string, seq<string>) -> string)
    ensures Run(parsed, order, mapping, config, fetch, query, rename) != Err(ParseFailed)
    ensures Run(parsed, order, mapping, config, fetch, query, rename).Ok? ==>
      NoMissing(Run(parsed, order, mapping, config, fetch, query, rename).value)
  {
    match ResolveAll(mapping, order)
    case Err(e) =>
      ResolveAllErr(mapping, order);
    case Ok(names) =>
      ResolvedAreKeys(mapping, order);
      var info := TableInfos(mapping, parsed.aliases, names);
      var rules := Filter(config, (rule: JoinRule) => RuleApplies(rule, Keys(info)));
      match FetchSpec(info, parsed.columns, parsed.where, rules, info, fetch)
      case Err(m) =>
      case Ok(dfs) =>
        match Merged(dfs, info, parsed.joins, rules)
        case Err(m) =>
        case Ok(merged) =>
          var f := PostFiltered(merged, parsed.where, rename, query);
          assert Run(parsed, order, mapping, config, fetch, query, rename) == Ok(FillNull(f));
          FilledHasNoMissing(f);
  }

  lemma FilledHasNoMissing(f: Frame)
    ensures NoMissing(FillNull(f))
  {
  }

  /**
   * Whatever the order of the tables, a table that resolves to no mapping
   * entry, or to several, fails the query before anything is fetched.
   */
  lemma UnresolvedTableFails(parsed: Parsed, order: seq<string>, mapping: TableMapping, config: seq<JoinRule>,
                             fetch: Fetcher, query: (Frame, string) -> Option<Frame>, rename: (string, seq<string>) -> string,
                             t: string)
    requires t in order && Resolve(mapping, t).Err?
    ensures Run(parsed, order, mapping, config, fetch, query, rename).Err?
    ensures Run(parsed, order, mapping, config, fetch, query, rename).error.Ambiguous? ||
            Run(parsed, order, mapping, config, fetch, query, rename).error.NotFound?
  {
    ResolveAllOk(mapping, order);
    ResolveAllErr(mapping, order);
  }
}
