/**
 * The input checks of the configuration dialogs (gui/dialogs_main.py):
 * what each dialog accepts from its entry fields and what it stores.
 * Widgets and message boxes are left out; a refused entry is the error
 * the message box would show.
 */
module Dialogs {
  import opened Wrappers
  import opened Text
  import opened Seqs
  import opened Dict
  import opened Config
  import opened Resolver

  // ================================================================ TableMappingDialog.save

  datatype MappingError = TableFormat | ConnectionRequired

  /**
   * `TableMappingDialog.save` (gui/dialogs_main.py:32-45): both entries are
   * stripped; the table must be `schema.table`, the connection non-empty.
   */
  function TableMappingEntry(tableEntry: string, connEntry: string): (r: Result<(string, string), MappingError>)
    ensures r == Err(TableFormat) <==> '.' !in Strip(tableEntry)
    ensures r == Err(ConnectionRequired) <==> '.' in Strip(tableEntry) && Strip(connEntry) == []
    ensures r.Ok? ==> r.value == (Strip(tableEntry), Strip(connEntry))
  {
    var table := Strip(tableEntry);
    var connection := Strip(connEntry);
    if table == [] || '.' !in table then Err(TableFormat)
    else if connection == [] then Err(ConnectionRequired)
    else Ok((table, connection))
  }

  /**
   * A saved mapping is accepted again unchanged when the dialog is reopened
   * on it (gui/dialogs_main.py:22-24), and once stored in the table mapping
   * the table resolves to itself, with its connection and its schema.
   */
  lemma SavedMappingStable(tableEntry: string, connEntry: string, mapping: TableMapping)
    requires TableMappingEntry(tableEntry, connEntry).Ok?
    ensures var (table, connection) := TableMappingEntry(tableEntry, connEntry).value;
      TableMappingEntry(table, connection) == Ok((table, connection))
      && Resolve(Put(mapping, table, connection), table) == Ok(table)
      && Get(Put(mapping, table, connection), table) == Some(connection)
      && SplitSchema(table).0 + "." + SplitSchema(table).1 == table
  {
    var (table, connection) := TableMappingEntry(tableEntry, connEntry).value;
    StripIdempotent(tableEntry);
    StripIdempotent(connEntry);
    PutGetSame(mapping, table, connection);
  }

  class TableMappingDialog {
    /** `self.result`: the accepted (table, connection) pair, if any. */
    var result: Option<(string, string)>

    constructor ()
      ensures result == None
    {
      result := None;
    }

    method Save(tableEntry: string, connEntry: string) returns (error: Option<MappingError>)
      modifies this
      ensures error.None? <==> TableMappingEntry(tableEntry, connEntry).Ok?
      ensures error.Some? ==> error.value == TableMappingEntry(tableEntry, connEntry).error && result == old(result)
      ensures error.None? ==> result == Some(TableMappingEntry(tableEntry, connEntry).value)
    {
      var entry := TableMappingEntry(tableEntry, connEntry);
      if entry.Err? {
        return Some(entry.error);
      }
      result := Some(entry.value);
      error := None;
    }
  }

  // ================================================================ JoinRuleDialog.save

  datatype RuleError = KeyRequired | TablesRequired | UnknownTables(tables: seq<string>)

  /**
   * `[t for t in (t.strip() for t in text.split(',')) if t]`
   * (gui/dialogs_main.py:101-102): the non-empty stripped pieces, in order.
   */
  function TableList(text: string): (r: seq<string>)
    ensures forall k :: 0 <= k < |r| ==> r[k] != []
    ensures IsSubsequence(r, StripEach(SplitOn(text, ",")))
    ensures forall k :: 0 <= k < |SplitOn(text, ",")| && Strip(SplitOn(text, ",")[k]) != [] ==>
      Strip(SplitOn(text, ",")[k]) in r
  {
    Filter(StripEach(SplitOn(text, ",")), (t: string) => t != [])
  }

  /** The tables of the list that are not among the known ones, in order. */
  function Unknown(tables: seq<string>, known: seq<string>): (r: seq<string>)
    ensures forall k :: 0 <= k < |r| ==> r[k] in tables && r[k] !in known
    ensures forall k :: 0 <= k < |tables| && tables[k] !in known ==> tables[k] in r
  {
    Filter(tables, (t: string) => t !in known)
  }

  /**
   * `JoinRuleDialog.save` (gui/dialogs_main.py:87-118): the key is checked
   * first, then the tables text, then that every listed table is known.
   */
  function JoinRuleEntry(keyEntry: string, joinTypeEntry: string, tablesEntry: string, known: seq<string>)
    : (r: Result<JoinRule, RuleError>)
    ensures Strip(keyEntry) == [] ==> r == Err(KeyRequired)
    ensures Strip(keyEntry) != [] && Strip(tablesEntry) == [] ==> r == Err(TablesRequired)
    ensures r.Ok? <==> (Strip(keyEntry) != [] && Strip(tablesEntry) != [] &&
      forall k :: 0 <= k < |TableList(Strip(tablesEntry))| ==> TableList(Strip(tablesEntry))[k] in known)
    ensures r.Ok? ==> r.value == JoinRule(TableList(Strip(tablesEntry)), Strip(keyEntry), Strip(joinTypeEntry))
    ensures r.Err? && r.error.UnknownTables? ==> (r.error.tables != [] &&
      forall k :: 0 <= k < |r.error.tables| ==> r.error.tables[k] in TableList(Strip(tablesEntry)) && r.error.tables[k] !in known)
  {
    var key := Strip(keyEntry);
    var text := Strip(tablesEntry);
    if key == [] then Err(KeyRequired)
    else if text == [] then Err(TablesRequired)
    else
      var tables := TableList(text);
      var invalid := Unknown(tables, known);
      UnknownEmpty(tables, known);
      if invalid != [] then Err(UnknownTables(invalid))
      else Ok(JoinRule(tables, key, Strip(joinTypeEntry)))
  }

  lemma UnknownEmpty(tables: seq<string>, known: seq<string>)
    ensures Unknown(tables, known) == [] <==> forall k :: 0 <= k < |tables| ==> tables[k] in known
  {
    var u := Unknown(tables, known);
    if u != [] {
      assert u[0] in tables;
      var k :| 0 <= k < |tables| && tables[k] == u[0];
    }
  }

  /** A text of commas only passes every check and gives a rule over no table. */
  lemma CommasOnlyAccepted(known: seq<string>)
    ensures JoinRuleEntry("id", "inner", ",", known) == Ok(JoinRule([], "id", "inner"))
  {
    assert Strip("id") == "id" by { StripClean("id"); }
    assert Strip("inner") == "inner" by { StripClean("inner"); }
    CommaOnlyList();
  }

  /** The text `,` lists no table. */
  lemma CommaOnlyList()
    ensures Strip(",") == "," && TableList(",") == []
  {
    StripClean(",");
    assert SplitOn(",", ",") == ["", ""] by {
      assert "" + [','] + "" == ",";
      FirstSeparatorSplit("", ',', "");
      NoSeparatorSplit("", ',');
    }
    assert StripEach(["", ""]) == ["", ""] by {
      StripClean("");
      StripEachSnoc([""], "");
      StripEachSnoc([], "");
    }
  }

  /** `" " + t` for each table. */
  function Spaced(ts: seq<string>): (r: seq<string>)
    ensures |r| == |ts| && forall k :: 0 <= k < |r| ==> r[k] == " " + ts[k]
  {
    seq(|ts|, k requires 0 <= k < |ts| => " " + ts[k])
  }

  /** Splitting `p + ", ".join(ts)` at commas gives `p + ts[0]`, then each further table behind a space. */
  lemma {:induction false} SplitJoined(p: string, ts: seq<string>)
    requires ts != [] && ',' !in p && forall k :: 0 <= k < |ts| ==> ',' !in ts[k]
    decreases |ts|
    ensures SplitOn(p + JoinWith(ts, ", "), ",") == [p + ts[0]] + Spaced(ts[1..])
  {
    if |ts| == 1 {
      assert p + JoinWith(ts, ", ") == p + ts[0];
      NoSeparatorSplit(p + ts[0], ',');
    } else {
      var rest := JoinWith(ts[1..], ", ");
      assert p + JoinWith(ts, ", ") == (p + ts[0]) + [','] + (" " + rest);
      FirstSeparatorSplit(p + ts[0], ',', " " + rest);
      SplitJoined(" ", ts[1..]);
      SpacedFront(ts[1..]);
    }
  }

  lemma SpacedFront(ts: seq<string>)
    requires ts != []
    ensures Spaced(ts) == [" " + ts[0]] + Spaced(ts[1..])
  {
    var r := [" " + ts[0]] + Spaced(ts[1..]);
    assert forall k :: 0 <= k < |ts| ==> Spaced(ts)[k] == r[k];
  }

  /** A table name as the rule dialog stores it: non-empty, stripped, without a comma. */
  predicate CleanTable(t: string) {
    t != [] && Strip(t) == t && ',' !in t
  }

  /**
   * The rule dialog opened on a rule shows its tables joined by `", "`
   * (gui/dialogs_main.py:80); reading that text back gives the same tables.
   */
  lemma {:induction false} TablesRoundTrip(ts: seq<string>)
    requires forall k :: 0 <= k < |ts| ==> CleanTable(ts[k])
    ensures TableList(JoinWith(ts, ", ")) == ts
  {
    if ts == [] {
      NoTables();
    } else {
      var pieces := SplitOn(JoinWith(ts, ", "), ",");
      assert pieces == [ts[0]] + Spaced(ts[1..]) by {
        SplitJoined("", ts);
        assert "" + JoinWith(ts, ", ") == JoinWith(ts, ", ") && "" + ts[0] == ts[0];
      }
      StripPieces(ts);
      FilterAll(ts, (t: string) => t != []);
    }
  }

  /** An empty text lists no table. */
  lemma NoTables()
    ensures TableList("") == []
  {
    NoSeparatorSplit("", ',');
    assert StripEach([""]) == [""] by { StripClean(""); }
  }

  lemma StripPieces(ts: seq<string>)
    requires ts != [] && forall k :: 0 <= k < |ts| ==> CleanTable(ts[k])
    ensures StripEach([ts[0]] + Spaced(ts[1..])) == ts
  {
    var pieces := [ts[0]] + Spaced(ts[1..]);
    var r := StripEach(pieces);
    forall k | 0 <= k < |ts| ensures r[k] == ts[k] {
      StrippedPiece(ts, k);
    }
    SameElements(r, ts);
  }

  /** Each piece of the split of `", ".join(ts)` strips back to its table. */
  lemma StrippedPiece(ts: seq<string>, k: nat)
    requires k < |ts| && forall j :: 0 <= j < |ts| ==> CleanTable(ts[j])
    ensures Strip(([ts[0]] + Spaced(ts[1..]))[k]) == ts[k]
  {
    assert CleanTable(ts[k]);
    if k > 0 {
      assert ([ts[0]] + Spaced(ts[1..]))[k] == " " + ts[k] by {
        assert ts[1..][k - 1] == ts[k];
      }
      StripLeadingSpace(ts[k]);
    }
  }

  /**
   * Reopening the rule dialog on a rule it accepted and pressing OK gives
   * the same rule: key and join type are shown as they are, the tables
   * joined by `", "` (gui/dialogs_main.py:77-80).
   */
  lemma RuleReopenedUnchanged(rule: JoinRule, known: seq<string>)
    requires rule.key != [] && Strip(rule.key) == rule.key && Strip(rule.joinType) == rule.joinType
    requires rule.tables != [] && forall k :: 0 <= k < |rule.tables| ==> CleanTable(rule.tables[k]) && rule.tables[k] in known
    ensures JoinRuleEntry(rule.key, rule.joinType, JoinWith(rule.tables, ", "), known) == Ok(rule)
  {
    var text := JoinWith(rule.tables, ", ");
    var last := rule.tables[|rule.tables| - 1];
    JoinEnds(rule.tables, ", ");
    assert !IsSpace(rule.tables[0][0]) && !IsSpace(last[|last| - 1]);
    StripClean(text);
    TablesRoundTrip(rule.tables);
  }

  class JoinRuleDialog {
    /** The table names offered, `self.all_tables`. */
    const allTables: seq<string>
    /** `self.result`: the accepted rule, if any. */
    var result: Option<JoinRule>

    constructor (allTables: seq<string>)
      ensures this.allTables == allTables && result == None
    {
      this.allTables := allTables;
      result := None;
    }

    method Save(keyEntry: string, joinTypeEntry: string, tablesEntry: string) returns (error: Option<RuleError>)
      modifies this
      ensures error.None? <==> JoinRuleEntry(keyEntry, joinTypeEntry, tablesEntry, allTables).Ok?
      ensures error.Some? ==> (error.value == JoinRuleEntry(keyEntry, joinTypeEntry, tablesEntry, allTables).error
        && result == old(result))
      ensures error.None? ==> result == Some(JoinRuleEntry(keyEntry, joinTypeEntry, tablesEntry, allTables).value)
    {
      var entry := JoinRuleEntry(keyEntry, joinTypeEntry, tablesEntry, allTables);
      if entry.Err? {
        return Some(entry.error);
      }
      result := Some(entry.value);
      error := None;
    }
  }

  // ================================================================ EditConnectionWindow

  datatype Mode = Add | Edit

  /** The six entry fields, as typed. */
  datatype ConnectionForm = ConnectionForm(name: string, host: string, port: string, dbname: string,
                                           user: string, password: string)

  datatype FormError =
    | NameRequired | NameTaken | HostRequired | PortNotNumber | DbNameRequired | UserRequired | PasswordRequired
  {
    /** The error's place in the order `_validate` checks them. */
    function Index(): nat {
      match this
      case NameRequired => 0
      case NameTaken => 1
      case HostRequired => 2
      case PortNotNumber => 3
      case DbNameRequired => 4
      case UserRequired => 5
      case PasswordRequired => 6
    }
  }

  /** Number of distinct form errors. */
  const FormErrorCount := 7

  /** The error `_validate` checks in place `i`, the inverse of `Index`. */
  function ErrorAt(i: nat): (e: FormError)
    requires i < FormErrorCount
    ensures e.Index() == i
  {
    if i == 0 then NameRequired
    else if i == 1 then NameTaken
    else if i == 2 then HostRequired
    else if i == 3 then PortNotNumber
    else if i == 4 then DbNameRequired
    else if i == 5 then UserRequired
    else PasswordRequired
  }

  /** `str.isdigit` on ASCII: non-empty, digits only. */
  predicate IsDigits(s: string) {
    s != [] && forall i :: 0 <= i < |s| ==> IsDigit(s[i])
  }

  /** The form as `_validate` reads it: every field stripped but the password. */
  function Entered(form: ConnectionForm): ConnectionForm {
    ConnectionForm(Strip(form.name), Strip(form.host), Strip(form.port), Strip(form.dbname), Strip(form.user), form.password)
  }

  /** Whether the entered (stripped) fields show error `e`. */
  predicate Shows(e: FormError, f: ConnectionForm, mode: Mode, existing: set<string>) {
    match e
    case NameRequired => f.name == []
    case NameTaken => mode == Add && f.name in existing
    case HostRequired => f.host == []
    case PortNotNumber => !IsDigits(f.port)
    case DbNameRequired => f.dbname == []
    case UserRequired => f.user == []
    case PasswordRequired => f.password == []
  }

  /** The errors among the first `k` checked that the entered fields show, in order. */
  function ErrorsUpTo(k: nat, f: ConnectionForm, mode: Mode, existing: set<string>): seq<FormError>
    requires k <= FormErrorCount
  {
    if k == 0 then []
    else
      var e := ErrorAt(k - 1);
      ErrorsUpTo(k - 1, f, mode, existing) + (if Shows(e, f, mode, existing) then [e] else [])
  }

  lemma ErrorsStep(k: nat, f: ConnectionForm, mode: Mode, existing: set<string>)
    requires 0 < k <= FormErrorCount
    ensures ErrorsUpTo(k, f, mode, existing) == ErrorsUpTo(k - 1, f, mode, existing) +
      (if Shows(ErrorAt(k - 1), f, mode, existing) then [ErrorAt(k - 1)] else [])
  {
  }

  /** `_validate` (gui/dialogs_main.py:226-250): the errors the form shows, in the fixed order. */
  function FormErrors(form: ConnectionForm, mode: Mode, existing: set<string>): seq<FormError> {
    ErrorsUpTo(FormErrorCount, Entered(form), mode, existing)
  }

  /** `Index` and `ErrorAt` are inverse. */
  lemma OrderIndex(e: FormError)
    ensures e.Index() < FormErrorCount && ErrorAt(e.Index()) == e
  {
  }

  lemma {:induction false} ErrorsUpToSpec(k: nat, f: ConnectionForm, mode: Mode, existing: set<string>)
    requires k <= FormErrorCount
    ensures forall e :: e in ErrorsUpTo(k, f, mode, existing) <==> e.Index() < k && Shows(e, f, mode, existing)
    ensures forall i, j :: 0 <= i < j < |ErrorsUpTo(k, f, mode, existing)| ==>
      ErrorsUpTo(k, f, mode, existing)[i].Index() < ErrorsUpTo(k, f, mode, existing)[j].Index()
  {
    if k > 0 {
      ErrorsUpToSpec(k - 1, f, mode, existing);
      forall x ensures x in ErrorsUpTo(k, f, mode, existing) <==> x.Index() < k && Shows(x, f, mode, existing) {
        OrderIndex(x);
      }
    }
  }

  /**
   * The form passes exactly when every field but the password is non-empty
   * once stripped, the password is non-empty, the port is all digits, and,
   * when adding, the name is new; each error shown is reported once, in
   * the fixed order.
   */
  lemma FormErrorsSpec(form: ConnectionForm, mode: Mode, existing: set<string>)
    ensures FormErrors(form, mode, existing) == [] <==> (Strip(form.name) != [] &&
      (mode == Edit || Strip(form.name) !in existing) && Strip(form.host) != [] && IsDigits(Strip(form.port)) &&
      Strip(form.dbname) != [] && Strip(form.user) != [] && form.password != [])
    ensures forall e :: e in FormErrors(form, mode, existing) <==> Shows(e, Entered(form), mode, existing)
    ensures forall i, j :: 0 <= i < j < |FormErrors(form, mode, existing)| ==>
      FormErrors(form, mode, existing)[i].Index() < FormErrors(form, mode, existing)[j].Index()
  {
    var f := Entered(form);
    var r := FormErrors(form, mode, existing);
    ErrorsUpToSpec(FormErrorCount, f, mode, existing);
    forall e ensures e in r <==> Shows(e, f, mode, existing) {
      OrderIndex(e);
    }
    if r != [] {
      assert r[0] in r;
    } else {
      assert !Shows(NameRequired, f, mode, existing) && !Shows(NameTaken, f, mode, existing);
      assert !Shows(HostRequired, f, mode, existing) && !Shows(PortNotNumber, f, mode, existing);
      assert !Shows(DbNameRequired, f, mode, existing) && !Shows(UserRequired, f, mode, existing);
      assert !Shows(PasswordRequired, f, mode, existing);
    }
  }

  /** A duplicate name is reported only when adding. */
  lemma DuplicateOnlyWhenAdding(form: ConnectionForm, existing: set<string>)
    ensures NameTaken !in FormErrors(form, Edit, existing)
    ensures NameTaken in FormErrors(form, Add, existing) <==> Strip(form.name) in existing
  {
    FormErrorsSpec(form, Edit, existing);
    FormErrorsSpec(form, Add, existing);
  }

  /** `int(port)` for a string of ASCII digits. */
  function DecimalValue(s: string): nat
    requires forall i :: 0 <= i < |s| ==> IsDigit(s[i])
  {
    if s == [] then 0
    else
      assert IsDigit(s[|s| - 1]);
      10 * DecimalValue(s[..|s| - 1]) + (s[|s| - 1] as int - '0' as int)
  }

  datatype ConnectionParams = ConnectionParams(host: string, port: nat, dbname: string)

  /** The parameters `save` builds from a valid form (gui/dialogs_main.py:258-263). */
  function ParamsOf(form: ConnectionForm): ConnectionParams
    requires IsDigits(Strip(form.port))
  {
    ConnectionParams(Strip(form.host), DecimalValue(Strip(form.port)), Strip(form.dbname))
  }

  /**
   * The update of `connection_params` in `save` (gui/dialogs_main.py:272-279):
   * an edit under a new name drops the old name; the parameters are stored
   * under the new name; every other connection stays as it was.
   */
  function Stored(params: map<string, ConnectionParams>, mode: Mode, oldName: Option<string>, name: string,
                  p: ConnectionParams): (r: map<string, ConnectionParams>)
    ensures name in r && r[name] == p
    ensures mode == Edit && oldName.Some? && oldName.value != name ==> oldName.value !in r
    ensures forall k :: k in params && k != name && !(mode == Edit && oldName == Some(k)) ==> k in r && r[k] == params[k]
    ensures r.Keys <= params.Keys + {name}
  {
    var kept := if mode == Edit && oldName != Some(name) && oldName.Some? && oldName.value in params
      then params - {oldName.value} else params;
    kept[name := p]
  }

  /** Saving never changes how many connections there are by more than one. */
  lemma StoredSize(params: map<string, ConnectionParams>, mode: Mode, oldName: Option<string>, name: string,
                   p: ConnectionParams)
    ensures |params| - 1 <= |Stored(params, mode, oldName, name, p)| <= |params| + 1
    ensures mode == Add ==> |Stored(params, mode, oldName, name, p)| == if name in params then |params| else |params| + 1
  {
    var kept := if mode == Edit && oldName != Some(name) && oldName.Some? && oldName.value in params
      then params - {oldName.value} else params;
    if kept != params {
      RemoveSize(params, oldName.value);
    }
    InsertSize(kept, name, p);
  }

  /** Removing a present key leaves one entry fewer. */
  lemma RemoveSize(m: map<string, ConnectionParams>, k: string)
    requires k in m
    ensures |m - {k}| == |m| - 1
  {
    assert m.Keys == (m - {k}).Keys + {k};
  }

  /** Storing under a key adds an entry exactly when the key is new. */
  lemma InsertSize(m: map<string, ConnectionParams>, k: string, v: ConnectionParams)
    ensures |m[k := v]| == if k in m then |m| else |m| + 1
  {
    if k in m {
      assert m[k := v].Keys == m.Keys;
    } else {
      assert m[k := v].Keys == m.Keys + {k};
    }
  }

  /** The FDW manager's `connection_params`, updated in place by the connection window. */
  class ConnectionRegistry {
    var params: map<string, ConnectionParams>

    constructor (params: map<string, ConnectionParams>)
      ensures this.params == params
    {
      this.params := params;
    }
  }

  class EditConnectionWindow {
    const registry: ConnectionRegistry
    const mode: Mode
    /** The connection being edited, `self.connection_name`. */
    const connectionName: Option<string>

    constructor (registry: ConnectionRegistry, mode: Mode, connectionName: Option<string>)
      ensures this.registry == registry && this.mode == mode && this.connectionName == connectionName
    {
      this.registry := registry;
      this.mode := mode;
      this.connectionName := connectionName;
    }

    /** `_validate`: the error list, built by appending in order. */
    method Validate(form: ConnectionForm) returns (errors: seq<FormError>)
      ensures errors == FormErrors(form, mode, registry.params.Keys)
    {
      var f := Entered(form);
      var params := registry.params;
      ghost var existing := params.Keys;
      errors := [];
      if f.name == [] {
        errors := errors + [NameRequired];
      }
      ErrorsStep(1, f, mode, existing);
      assert errors == ErrorsUpTo(1, f, mode, existing);
      if mode == Add && f.name in params {
        errors := errors + [NameTaken];
      }
      ErrorsStep(2, f, mode, existing);
      assert errors == ErrorsUpTo(2, f, mode, existing);
      if f.host == [] {
        errors := errors + [HostRequired];
      }
      ErrorsStep(3, f, mode, existing);
      assert errors == ErrorsUpTo(3, f, mode, existing);
      if !IsDigits(f.port) {
        errors := errors + [PortNotNumber];
      }
      ErrorsStep(4, f, mode, existing);
      assert errors == ErrorsUpTo(4, f, mode, existing);
      if f.dbname == [] {
        errors := errors + [DbNameRequired];
      }
      ErrorsStep(5, f, mode, existing);
      assert errors == ErrorsUpTo(5, f, mode, existing);
      if f.user == [] {
        errors := errors + [UserRequired];
      }
      ErrorsStep(6, f, mode, existing);
      assert errors == ErrorsUpTo(6, f, mode, existing);
      if f.password == [] {
        errors := errors + [PasswordRequired];
      }
      ErrorsStep(7, f, mode, existing);
      assert errors == ErrorsUpTo(7, f, mode, existing);
    }

    /** `save`, as far as `connection_params` goes: nothing changes while the form shows errors. */
    method Save(form: ConnectionForm) returns (errors: seq<FormError>)
      modifies registry
      ensures errors == FormErrors(form, mode, old(registry.params).Keys)
      ensures errors != [] ==> registry.params == old(registry.params)
      ensures errors == [] ==> (IsDigits(Strip(form.port)) &&
        registry.params == Stored(old(registry.params), mode, connectionName, Strip(form.name), ParamsOf(form)))
    {
      errors := Validate(form);
      FormErrorsSpec(form, mode, registry.params.Keys);
      if errors != [] {
        return;
      }
      var name := Strip(form.name);
      var params := ParamsOf(form);
      if mode == Edit && connectionName != Some(name) {
        if connectionName.Some? && connectionName.value in registry.params {
          registry.params := registry.params - {connectionName.value};
        }
      }
      registry.params := registry.params[name := params];
    }
  }

  // ================================================================ MappingDialog.save

  datatype SchemaError = SchemaRequired | ConnectionNotOffered

  /**
   * `MappingDialog.save` (gui/dialogs_main.py:371-387): a non-empty schema,
   * stored lower-cased, and one of the offered connections.
   */
  function SchemaMappingEntry(schemaEntry: string, connEntry: string, offered: seq<string>)
    : (r: Result<(string, string), SchemaError>)
    ensures r == Err(SchemaRequired) <==> Strip(schemaEntry) == []
    ensures r == Err(ConnectionNotOffered) <==> Strip(schemaEntry) != [] && (Strip(connEntry) == [] || Strip(connEntry) !in offered)
    ensures r.Ok? ==> r.value == (Lower(Strip(schemaEntry)), Strip(connEntry)) && r.value.1 in offered
    ensures r.Ok? ==> forall i :: 0 <= i < |r.value.0| ==> !('A' <= r.value.0[i] <= 'Z')
  {
    var schema := Strip(schemaEntry);
    var connection := Strip(connEntry);
    if schema == [] then Err(SchemaRequired)
    else if connection == [] || connection !in offered then Err(ConnectionNotOffered)
    else Ok((Lower(schema), connection))
  }

  /** Reopening the dialog on a saved mapping (gui/dialogs_main.py:362-365) and saving gives the same mapping. */
  lemma SchemaMappingStable(schemaEntry: string, connEntry: string, offered: seq<string>)
    requires SchemaMappingEntry(schemaEntry, connEntry, offered).Ok?
    ensures var (schema, connection) := SchemaMappingEntry(schemaEntry, connEntry, offered).value;
      SchemaMappingEntry(schema, connection, offered) == Ok((schema, connection))
  {
    StripIdempotent(schemaEntry);
    StripIdempotent(connEntry);
    StripLower(Strip(schemaEntry));
    LowerIdempotent(Strip(schemaEntry));
  }

  class MappingDialog {
    /** `self.connections`: the connection names offered. */
    const connections: seq<string>
    var result: Option<(string, string)>

    constructor (connections: seq<string>)
      ensures this.connections == connections && result == None
    {
      this.connections := connections;
      result := None;
    }

    method Save(schemaEntry: string, connEntry: string) returns (error: Option<SchemaError>)
      modifies this
      ensures error.None? <==> SchemaMappingEntry(schemaEntry, connEntry, connections).Ok?
      ensures error.Some? ==> (error.value == SchemaMappingEntry(schemaEntry, connEntry, connections).error
        && result == old(result))
      ensures error.None? ==> result == Some(SchemaMappingEntry(schemaEntry, connEntry, connections).value)
    {
      var entry := SchemaMappingEntry(schemaEntry, connEntry, connections);
      if entry.Err? {
        return Some(entry.error);
      }
      result := Some(entry.value);
      error := None;
    }
  }
}
