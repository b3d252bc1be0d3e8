/**
 * Step 1 of `execute_query` (core/fdw_manager.py:290-324): every table
 * named in the query is resolved against the table mapping, split into
 * schema and table name, and given an alias; and the JOIN rules whose
 * tables are all present are selected (core/fdw_manager.py:522-532).
 */
module Resolver {
  import opened Wrappers
  import opened Text
  import opened Seqs
  import opened Dict
  import opened Config

  /** Why a query fails. */
  datatype QueryError =
    | ParseFailed
    | Ambiguous(table: string, candidates: seq<string>)
    | NotFound(table: string)
    | Execution(message: string)

  /** `name.split('.')[-1]`: the text after the last dot (all of `name` when there is none). */
  function LastSegment(name: string): (r: string)
    ensures '.' !in r && |r| <= |name|
  {
    if name == [] || name[|name| - 1] == '.' then []
    else LastSegment(name[..|name| - 1]) + [name[|name| - 1]]
  }

  /** The last segment is the suffix of `name` after its last dot, or all of `name` when it has none. */
  lemma {:induction false} LastSegmentSuffix(name: string)
    ensures LastSegment(name) == name[|name| - |LastSegment(name)|..]
    ensures '.' in name ==> |LastSegment(name)| < |name| && name[|name| - |LastSegment(name)| - 1] == '.'
    ensures '.' !in name ==> LastSegment(name) == name
  {
    if name != [] && name[|name| - 1] != '.' {
      var init := name[..|name| - 1];
      LastSegmentSuffix(init);
      assert name == init + [name[|name| - 1]];
      if '.' in name {
        assert '.' in init;
      }
    }
  }

  /** Mapping keys whose last segment is the last segment of `name`, in mapping order. */
  function Candidates(mapping: TableMapping, name: string): (r: seq<string>)
    ensures |r| <= |mapping|
  {
    if mapping == [] then []
    else
      var rest := Candidates(mapping[1..], name);
      if LastSegment(mapping[0].key) == LastSegment(name) then [mapping[0].key] + rest else rest
  }

  /** The candidates are exactly the mapping keys that share the last segment of `name`. */
  lemma {:induction false} CandidatesSpec(mapping: TableMapping, name: string)
    ensures forall k :: 0 <= k < |Candidates(mapping, name)| ==>
      Candidates(mapping, name)[k] in Keys(mapping) && LastSegment(Candidates(mapping, name)[k]) == LastSegment(name)
    ensures forall k :: 0 <= k < |mapping| && LastSegment(mapping[k].key) == LastSegment(name) ==>
      mapping[k].key in Candidates(mapping, name)
  {
    if mapping != [] {
      CandidatesSpec(mapping[1..], name);
      assert forall k :: 1 <= k < |mapping| ==> mapping[k] == mapping[1..][k - 1];
    }
  }

  /**
   * The mapping key a query table stands for: itself when it is a key,
   * otherwise the single key with the same last segment.
   */
  function Resolve(mapping: TableMapping, name: string): (r: Result<string, QueryError>)
    ensures name in Keys(mapping) ==> r == Ok(name)
    ensures r.Ok? ==> r.value in Keys(mapping)
  {
    if name in Keys(mapping) then Ok(name)
    else
      var candidates := Candidates(mapping, name);
      if |candidates| == 1 then CandidatesSpec(mapping, name); Ok(candidates[0])
      else if |candidates| > 1 then Err(Ambiguous(name, candidates))
      else Err(NotFound(name))
  }

  /**
   * A name that is not a mapping key resolves through the keys that share
   * its last segment: exactly one gives that key, several give an
   * ambiguity error listing them, none gives a not-found error.
   */
  lemma ResolveByLastSegment(mapping: TableMapping, name: string)
    requires name !in Keys(mapping)
    ensures Resolve(mapping, name).Ok? <==> |Candidates(mapping, name)| == 1
    ensures Resolve(mapping, name).Ok? ==>
      Resolve(mapping, name).value == Candidates(mapping, name)[0]
      && LastSegment(Resolve(mapping, name).value) == LastSegment(name)
    ensures Resolve(mapping, name) == Err(Ambiguous(name, Candidates(mapping, name))) <==> |Candidates(mapping, name)| > 1
    ensures Resolve(mapping, name) == Err(NotFound(name)) <==> Candidates(mapping, name) == []
  {
    CandidatesSpec(mapping, name);
  }

  /** A table of the mapping that is named exactly resolves to itself, even when other schemas hold a table of the same name. */
  lemma ExactNameWins(mapping: TableMapping, name: string)
    requires exists k :: 0 <= k < |mapping| && mapping[k].key == name
    ensures Resolve(mapping, name) == Ok(name)
  {
    var k :| 0 <= k < |mapping| && mapping[k].key == name;
    assert Keys(mapping)[k] == name;
  }

  /** `full.split('.', 1)`, with schema `public` when there is no dot. */
  function SplitSchema(full: string): (r: (string, string))
    ensures '.' !in r.0
    ensures '.' in full ==> r.0 + "." + r.1 == full
    ensures '.' !in full ==> r == ("public", full)
  {
    ContainsChar(full, '.');
    match Find(full, ".", 0)
    case None => ("public", full)
    case Some(i) =>
      assert full == full[..i] + "." + full[i + 1..] by {
        assert full[i..i + 1] == ".";
      }
      NoDotBefore(full, i);
      (full[..i], full[i + 1..])
  }

  lemma NoDotBefore(full: string, i: nat)
    requires Find(full, ".", 0) == Some(i)
    ensures '.' !in full[..i]
  {
    forall j | 0 <= j < i ensures full[j] != '.' {
      assert !OccursAt(full, ".", j);
      assert full[j..j + 1] == [full[j]];
    }
  }

  /** A qualified name comes apart at its first dot and is put back together by joining with a dot. */
  lemma SplitSchemaRoundTrip(schema: string, table: string)
    requires '.' !in schema
    ensures SplitSchema(schema + "." + table) == (schema, table)
  {
    var full := schema + "." + table;
    assert full[|schema|] == '.';
    assert OccursAt(full, ".", |schema|) by { assert full[|schema|..|schema| + 1] == "."; }
    forall j | 0 <= j < |schema| ensures !OccursAt(full, ".", j) {
      assert full[j..j + 1] == [schema[j]];
      assert schema[j] in schema;
    }
    assert full[..|schema|] == schema;
    assert full[|schema| + 1..] == table;
  }

  /** What step 1 records per resolved table. */
  datatype TableInfo = TableInfo(connection: string, schema: string, tableName: string, alias: string)

  /** The record for resolved table `full`: its connection, schema and table name, and its alias. */
  function InfoFor(mapping: TableMapping, aliases: seq<Entry<string, string>>, full: string): (r: TableInfo)
    requires full in Keys(mapping)
    ensures Get(mapping, full) == Some(r.connection)
    ensures (r.schema, r.tableName) == SplitSchema(full)
    ensures KeyOf(aliases, full).Some? ==> r.alias == KeyOf(aliases, full).value
    ensures KeyOf(aliases, full).None? ==> r.alias == r.tableName
  {
    var (schema, table) := SplitSchema(full);
    var alias := match KeyOf(aliases, full) case Some(a) => a case None => table;
    TableInfo(Get(mapping, full).value, schema, table, alias)
  }

  /** `table_info`: the resolved tables in order of first resolution, each with its record. */
  type Infos = seq<Entry<string, TableInfo>>

  /** Every entry is a mapping key with the record step 1 computes for it. */
  predicate Records(info: Infos, mapping: TableMapping, aliases: seq<Entry<string, string>>) {
    forall j :: 0 <= j < |info| ==>
      info[j].key in Keys(mapping) && info[j].value == InfoFor(mapping, aliases, info[j].key)
  }

  /**
   * Resolving the tables in order: the first error, or every resolved name
   * in the order of the tables.
   */
  function ResolveAll(mapping: TableMapping, tables: seq<string>): (r: Result<seq<string>, QueryError>)
    ensures r.Ok? ==> |r.value| == |tables|
  {
    if tables == [] then Ok([])
    else
      match ResolveAll(mapping, tables[..|tables| - 1])
      case Err(e) => Err(e)
      case Ok(names) =>
        match Resolve(mapping, tables[|tables| - 1])
        case Err(e) => Err(e)
        case Ok(full) => Ok(names + [full])
  }

  /**
   * `ResolveAll` succeeds exactly when every table resolves, and then lists
   * what each table resolves to.
   */
  lemma ResolveAllOk(mapping: TableMapping, tables: seq<string>)
    ensures ResolveAll(mapping, tables).Ok? <==> forall k :: 0 <= k < |tables| ==> Resolve(mapping, tables[k]).Ok?
    ensures ResolveAll(mapping, tables).Ok? ==>
      forall k :: 0 <= k < |tables| ==> ResolveAll(mapping, tables).value[k] == Resolve(mapping, tables[k]).value
  {
    ResolveAllSucceeds(mapping, tables);
    if ResolveAll(mapping, tables).Ok? {
      ResolveAllLists(mapping, tables);
    }
  }

  lemma {:induction false} ResolveAllSucceeds(mapping: TableMapping, tables: seq<string>)
    ensures ResolveAll(mapping, tables).Ok? <==> forall k :: 0 <= k < |tables| ==> Resolve(mapping, tables[k]).Ok?
  {
    if tables != [] {
      var init, last := tables[..|tables| - 1], tables[|tables| - 1];
      ResolveAllSucceeds(mapping, init);
      if ResolveAll(mapping, tables).Ok? {
        assert ResolveAll(mapping, init).Ok? && Resolve(mapping, last).Ok?;
        forall k | 0 <= k < |tables| ensures Resolve(mapping, tables[k]).Ok? {
          if k < |init| {
            assert tables[k] == init[k];
          }
        }
      } else if ResolveAll(mapping, init).Err? {
        var k :| 0 <= k < |init| && Resolve(mapping, init[k]).Err?;
        assert Resolve(mapping, tables[k]).Err?;
      } else {
        assert Resolve(mapping, tables[|tables| - 1]).Err?;
      }
    }
  }

  lemma {:induction false} ResolveAllLists(mapping: TableMapping, tables: seq<string>)
    requires ResolveAll(mapping, tables).Ok?
    ensures forall k :: 0 <= k < |tables| ==> Resolve(mapping, tables[k]) == Ok(ResolveAll(mapping, tables).value[k])
  {
    if tables != [] {
      var init := tables[..|tables| - 1];
      assert ResolveAll(mapping, init).Ok?;
      ResolveAllLists(mapping, init);
      var names := ResolveAll(mapping, init).value;
      assert Resolve(mapping, tables[|tables| - 1]).Ok?;
      assert ResolveAll(mapping, tables).value == names + [Resolve(mapping, tables[|tables| - 1]).value];
      assert forall k :: 0 <= k < |init| ==> init[k] == tables[k];
    }
  }

  /** When `ResolveAll` fails, its error is that of the first table that does not resolve. */
  lemma {:induction false} ResolveAllErr(mapping: TableMapping, tables: seq<string>)
    requires ResolveAll(mapping, tables).Err?
    ensures exists k :: (0 <= k < |tables| && Resolve(mapping, tables[k]) == Err(ResolveAll(mapping, tables).error)
      && forall j :: 0 <= j < k ==> Resolve(mapping, tables[j]).Ok?)
  {
    var init := tables[..|tables| - 1];
    assert forall k :: 0 <= k < |init| ==> init[k] == tables[k];
    if ResolveAll(mapping, init).Err? {
      ResolveAllErr(mapping, init);
    } else {
      ResolveAllOk(mapping, init);
      assert Resolve(mapping, tables[|tables| - 1]) == Err(ResolveAll(mapping, tables).error);
    }
  }

  /**
   * `table_info` after the loop of core/fdw_manager.py:291-324 over
   * `tables`: each table's record is stored under the name it resolves
   * to, and the first table that does not resolve ends the loop with its
   * error.
   */
  function Resolution(mapping: TableMapping, aliases: seq<Entry<string, string>>, tables: seq<string>)
    : Result<Infos, QueryError>
  {
    if tables == [] then Ok([])
    else
      match Resolution(mapping, aliases, tables[..|tables| - 1])
      case Err(e) => Err(e)
      case Ok(info) =>
        match Resolve(mapping, tables[|tables| - 1])
        case Err(e) => Err(e)
        case Ok(full) => Ok(Put(info, full, InfoFor(mapping, aliases, full)))
  }

  /**
   * The loop fails exactly when some table does not resolve, with the
   * first such error; otherwise `table_info` has the resolved names in
   * order of first appearance, each once and with its record.
   */
  lemma {:induction false} ResolutionSpec(mapping: TableMapping, aliases: seq<Entry<string, string>>, tables: seq<string>)
    ensures Resolution(mapping, aliases, tables).Ok? <==> ResolveAll(mapping, tables).Ok?
    ensures Resolution(mapping, aliases, tables).Err? ==>
      Resolution(mapping, aliases, tables).error == ResolveAll(mapping, tables).error
    ensures Resolution(mapping, aliases, tables).Ok? ==>
      Recorded(Resolution(mapping, aliases, tables).value, ResolveAll(mapping, tables).value, mapping, aliases)
  {
    if tables == [] {
      assert Recorded([], [], mapping, aliases) by {
        assert Unique<string>([]) == [];
      }
    } else {
      var init := tables[..|tables| - 1];
      ResolutionSpec(mapping, aliases, init);
      match Resolution(mapping, aliases, init)
      case Err(e) =>
      case Ok(info) =>
        match Resolve(mapping, tables[|tables| - 1])
        case Err(e) =>
        case Ok(full) =>
          RecordNext(info, ResolveAll(mapping, init).value, full, mapping, aliases);
    }
  }

  /** `ResolveTables` step by step: the loop of core/fdw_manager.py:291-324. */
  method ResolveTables(tables: seq<string>, mapping: TableMapping, aliases: seq<Entry<string, string>>)
    returns (r: Result<Infos, QueryError>)
    ensures r == Resolution(mapping, aliases, tables)
    ensures r.Ok? <==> ResolveAll(mapping, tables).Ok?
    ensures r.Err? ==> r.error == ResolveAll(mapping, tables).error
    ensures r.Ok? ==> Keys(r.value) == Unique(ResolveAll(mapping, tables).value)
    ensures r.Ok? ==> Records(r.value, mapping, aliases) && UniqueKeys(r.value)
  {
    var info: Infos := [];
    var k := 0;
    while k < |tables|
      invariant k <= |tables|
      invariant Resolution(mapping, aliases, tables[..k]) == Ok(info)
    {
      assert tables[..k + 1][..k] == tables[..k];
      var resolved := Resolve(mapping, tables[k]);
      if resolved.Err? {
        ResolutionStops(mapping, aliases, tables, k + 1);
        ResolutionSpec(mapping, aliases, tables);
        return Err(resolved.error);
      }
      var full := resolved.value;
      info := Put(info, full, InfoFor(mapping, aliases, full));
      k := k + 1;
    }
    assert tables[..k] == tables;
    ResolutionSpec(mapping, aliases, tables);
    r := Ok(info);
  }

  /** Once a prefix fails, every longer prefix fails with the same error. */
  lemma {:induction false} ResolutionStops(mapping: TableMapping, aliases: seq<Entry<string, string>>, tables: seq<string>, k: nat)
    requires k <= |tables| && Resolution(mapping, aliases, tables[..k]).Err?
    ensures Resolution(mapping, aliases, tables) == Resolution(mapping, aliases, tables[..k])
    decreases |tables| - k
  {
    if k < |tables| {
      assert tables[..k + 1][..k] == tables[..k];
      ResolutionStops(mapping, aliases, tables, k + 1);
    } else {
      assert tables[..k] == tables;
    }
  }

  /** `table_info` holds the resolved names, each once in order of first appearance, with their records. */
  predicate Recorded(info: Infos, names: seq<string>, mapping: TableMapping, aliases: seq<Entry<string, string>>) {
    Keys(info) == Unique(names) && Records(info, mapping, aliases) && UniqueKeys(info)
  }

  /** Recording one more resolved table keeps `table_info` in step with the resolved names. */
  lemma RecordNext(info: Infos, names: seq<string>, full: string, mapping: TableMapping, aliases: seq<Entry<string, string>>)
    requires full in Keys(mapping)
    requires Recorded(info, names, mapping, aliases)
    ensures Recorded(Put(info, full, InfoFor(mapping, aliases, full)), names + [full], mapping, aliases)
  {
    PutKeepsRecords(info, full, mapping, aliases);
    PutKeys(info, full, InfoFor(mapping, aliases, full));
    UniqueSnoc(names, full);
  }

  lemma PutKeepsRecords(info: Infos, full: string, mapping: TableMapping, aliases: seq<Entry<string, string>>)
    requires full in Keys(mapping)
    requires Records(info, mapping, aliases) && UniqueKeys(info)
    ensures Records(Put(info, full, InfoFor(mapping, aliases, full)), mapping, aliases)
    ensures UniqueKeys(Put(info, full, InfoFor(mapping, aliases, full)))
  {
    var rec := InfoFor(mapping, aliases, full);
    PutUnique(info, full, rec);
    PutRecords(info, full, rec);
    var r := Put(info, full, rec);
    forall j | 0 <= j < |r| ensures r[j].key in Keys(mapping) && r[j].value == InfoFor(mapping, aliases, r[j].key) {
      assert r[j] in r;
      if r[j] != Entry(full, rec) {
        var i :| 0 <= i < |info| && info[i] == r[j];
      }
    }
  }

  lemma {:induction false} PutRecords<V>(d: seq<Entry<string, V>>, k: string, v: V)
    ensures forall e :: e in Put(d, k, v) ==> e == Entry(k, v) || e in d
  {
    if d != [] && d[0].key != k {
      PutRecords(d[1..], k, v);
      assert Put(d, k, v) == [d[0]] + Put(d[1..], k, v);
      assert forall e :: e in d[1..] ==> e in d;
    }
  }

  /** Every table of the rule is present. */
  predicate RuleApplies(rule: JoinRule, present: seq<string>) {
    forall k :: 0 <= k < |rule.tables| ==> rule.tables[k] in present
  }

  /** `_get_applicable_join_rules`: the rules, in configuration order, whose tables are all present. */
  method ApplicableRules(config: seq<JoinRule>, info: Infos) returns (rules: seq<JoinRule>)
    ensures rules == Filter(config, (rule: JoinRule) => RuleApplies(rule, Keys(info)))
    ensures forall k :: 0 <= k < |rules| ==> RuleApplies(rules[k], Keys(info)) && rules[k] in config
    ensures forall k :: 0 <= k < |config| && RuleApplies(config[k], Keys(info)) ==> config[k] in rules
  {
    var present := Keys(info);
    var applies := (rule: JoinRule) => RuleApplies(rule, present);
    rules := [];
    for k := 0 to |config|
      invariant rules == Filter(config[..k], applies)
    {
      FilterSnoc(config[..k], config[k], applies);
      if RuleApplies(config[k], present) {
        rules := rules + [config[k]];
      }
      assert config[..k + 1] == config[..k] + [config[k]];
    }
    assert config[..|config|] == config;
  }
}
