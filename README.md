# Federated query engine — verified model

This project models the query-federation core of a small "foreign data
wrapper" tool. The tool takes one `SELECT` statement over tables that live in
several PostgreSQL databases. It works in these steps:

- It parses the statement: columns, `JOIN … ON` clauses, the FROM list with
  aliases, and the WHERE text.
- It resolves every table against a table→connection mapping.
- It fetches each table with its own statement. That statement carries the
  WHERE fragments about the table and an `alias.key IN (…)` filter whose
  values come from tables fetched before it.
- It merges the fetched frames: by explicit join keys, else by a configured
  join rule, else side by side.
- It filters the merged result again with the whole WHERE clause and shows
  missing cells as `NULL`.

The project also models the input checks of the tool's dialogs: the
table-mapping dialog, the join-rule dialog, the connection form with its
rename of a connection, and the schema-mapping dialog.

Modules, in dependency order:

- `Wrappers`: `Option` and `Result`.
- `Text`: Python string operations on ASCII, namely `strip`, `lower`, `find`,
  `split`, `join`, `replace` and whitespace `split()`.
- `Seqs` and `Dict`: list filters and `unique()`, and insertion-ordered
  dictionaries.
- `Parser`: `parse_sql` and `_split_columns`.
- `Config`: the table mapping and the join rules.
- `Resolver`: step 1 and `_get_applicable_join_rules`.
- `Frames`: data frames as column labels plus positional rows of optional
  string cells.
- `Planner`: step 2, with `_extract_table_where` and `_get_columns_for_table`.
- `Merger`: step 3 and `_get_join_keys`.
- `WhereFilter`: step 4, `_apply_where_manually`, and the finish.
- `Engine`: `execute_query` as a whole.
- `Dialogs`: the dialog checks.

Code that updates state step by step is written as methods with loops. Each
method is proved equal to a specification function. This covers the
`_split_columns` scan, the loops of `parse_sql`, the table loop, the fetch
loop and the `join_params` loops, the merge loop, the mask loop of
`_apply_where_manually`, the `errors` list of `_validate`, and the dialogs'
`result` fields. The properties the code promises are then proved about those
functions.

Python leaves the iteration order of the parsed table set unspecified. The
model takes that order as a parameter. The backends, pandas' `query()`
evaluator and the lookaround-regex rename of `_prepare_where_condition` are
parameters (oracles) too.

The repository's own test disagrees with the code on one point. The test at
core/fdw_autotest.py:75-86 expects one JOIN clause for `JOIN public.orders o
ON u.id = o.user_id`. The JOIN pattern of core/fdw_manager.py:158 reaches its
alias group only through ` AS `, so a bare alias makes the whole pattern fail
there. `ParseExamples.JoinQueryParsed` proves that `joins` is empty for this
query. The tables, the aliases and the WHERE text do agree with the test.

## Model

| member | source | states |
|---|---|---|
| Parser.SplitColumns | core/fdw_manager.py:254-278 | The character loop returns exactly `ColumnParts(s)`: the stripped segments between separating commas, with an empty last segment dropped. |
| Parser.ScanOne | core/fdw_manager.py:261-273 | One character: a quote toggles the single shared quote flag, `(` and `)` change the depth only outside quotes, and `)` never takes the depth below 0. A character separates exactly when it is a comma outside quotes at depth 0. |
| Parser.ScanComplete | core/fdw_manager.py:254-278 | The left-to-right scan completes exactly the text between consecutive separators, and keeps the tail only when it is not empty. |
| Parser.ColumnsBetweenSeparators | core/fdw_manager.py:254-278 | The columns are the stripped pieces between commas that lie outside quotes and brackets. |
| Parser.NextSeparator | core/fdw_manager.py:268-271 | Returns the first position at or after `from` that is a separating comma, or the end of the text. |
| Parser.NextSeparatorFirst | core/fdw_manager.py:268-271 | No separator lies before the one `NextSeparator` finds. |
| Parser.NoCommaOneColumn | core/fdw_manager.py:254-278 | Text without a comma is a single stripped column, or no column when it is empty. |
| Parser.PlainColumns | core/fdw_manager.py:254-278 | Without quotes or brackets, the columns are `[c.strip() for c in s.split(',')]` with an empty last piece dropped. This is the reference definition the scanner is checked against. |
| Parser.PlainSegments | core/fdw_manager.py:254-278 | In plain text the segments from any position are the comma-split pieces of the rest, with an empty last piece dropped. |
| Parser.Keywords | core/fdw_manager.py:140-145 | `None` exactly when the lower-cased normalised text has no `select`, or no `from` at or after it. Otherwise it returns those positions, in order. |
| Parser.MissingKeywordIsError | core/fdw_manager.py:141-145 | A query without `select` is rejected. |
| Parser.ParseSql | core/fdw_manager.py:124-251 | Fails exactly when `Keywords` finds no `select`…`from`. Otherwise the result holds the split columns, `select_all` (some column contains `*`), every JOIN match, the tables of the JOIN matches and FROM items, the aliases recorded in source order, and the WHERE text. |
| Parser.RecordJoins | core/fdw_manager.py:162-180 | Each JOIN match adds its table to `tables` and exactly one entry to `joins`, in order. Its alias is recorded only when present. |
| Parser.RecordFromItems | core/fdw_manager.py:206-235 | Each FROM item adds its table, and its alias when it has one, to what the JOIN loop recorded. |
| Parser.JoinMatches | core/fdw_manager.py:157-162 | Every recognised clause has a non-empty table, a non-empty alias when there is one, and a condition without `)`. Which clauses are recognised is stated by the `JoinFacts` lemmas below. |
| Parser.MatchJoinTail | core/fdw_manager.py:157-160 | A match after a JOIN keyword ends past the keyword, inside the text, and is well shaped. |
| Parser.ClauseFrom | core/fdw_manager.py:158 | The condition `[^)]+` ends at `CloseParenFrom`, the next `)` or the end of the statement. The recorded condition is the stripped text up to there, and contains no `)`. |
| Parser.CloseParenFrom | core/fdw_manager.py:158 | Returns the first `)` at or after the start of the condition, or the end of the text. No `)` lies before it. |
| Parser.BareAliasIsNotMatched | core/fdw_manager.py:157-160 | `JOIN schema.t o ON …` is not matched at all: the alias group is reachable only through ` AS `. |
| Parser.AliasWord | core/fdw_manager.py:220-228 | There is an alias word exactly when the piece has more than one word. It is the second word, or the third when the second is `as`. |
| Parser.CleanAlias | core/fdw_manager.py:230-235 | The alias is recorded with quotes stripped, and only when its lower-case form is not inner, outer, left, right, full or cross. |
| Parser.FromItemOf | core/fdw_manager.py:208-235 | A piece gives an item exactly when it has a word. The first word is the table. The alias is `CleanAlias` of `AliasWord` of the words, so a one-word piece has no alias. |
| Parser.WhereTakenAsAlias | core/fdw_manager.py:186-235 | In `FROM t WHERE cond` with no `ON`, the piece `t WHERE cond` records `WHERE` as the alias of `t`. |
| Parser.ThreeWords | core/fdw_manager.py:212 | Three space-free words joined by single spaces split back into those three words. |
| Parser.WhereOf | core/fdw_manager.py:237-249 | Without a `where` after FROM, the WHERE text is empty. |
| Parser.GroupByWinsOverLimit | core/fdw_manager.py:242-247 | When `group by` occurs, the WHERE text is what precedes it, even if `limit` comes earlier: the terminators are tried in list order. |
| Parser.NoTerminatorKeepsAll | core/fdw_manager.py:240-247 | Without a terminator, the stripped WHERE text is kept whole. |
| Parser.CutAtOn | core/fdw_manager.py:203 | Returns the FROM text up to the first word `on` that has text after it, or the whole text when there is no such word. |
| Parser.FromPieces | core/fdw_manager.py:206 | Splitting at commas and `join` always gives at least one piece, and no piece holds a comma. |
| Parser.FromPiecesSplitCommas | core/fdw_manager.py:206 | Without a `join` word, the pieces are exactly `s.split(',')`. |
| Parser.FromPiecesRejoin | core/fdw_manager.py:206 | Without a `join` word, joining the pieces with `,` gives the FROM text back. |
| Parser.ParseResult | core/fdw_manager.py:124-251 | Fails exactly when the normalised query lacks `select`…`from`. A success describes the query. |
| Parser.ParseDetermined | core/fdw_manager.py:124-251 | A query has at most one parse. |
| Text.NormalizeIdempotent | core/fdw_manager.py:137 | Collapsing whitespace twice is the same as once. |
| Text.WordsOfJoin | core/fdw_manager.py:137 | The words of a normalised text are the words it was built from. |
| JoinFacts.TailAfterTable | core/fdw_manager.py:158 | Once a word follows `JOIN `, the match is decided by what follows the table name `\w+(\.\w+)?`. |
| JoinFacts.AfterTableOn | core/fdw_manager.py:158 | ` ON ` right after the table gives a clause without alias whose condition starts after ` ON `. |
| JoinFacts.AfterTableAs | core/fdw_manager.py:158 | ` AS `, a word and ` ON ` after the table give a clause whose alias is that word. |
| JoinFacts.ClauseEndsAt | core/fdw_manager.py:158 | A condition that runs to a `)` or the end of the text is recorded stripped. |
| JoinFacts.TailOnWords | core/fdw_manager.py:157-160 | `JOIN t ON c`, with `c` free of `)`, is matched as table `t`, no alias, condition `c` stripped. |
| JoinFacts.TailAsOnWords | core/fdw_manager.py:157-160 | `JOIN t AS a ON c` is matched as table `t`, alias `a`, condition `c` stripped. |
| JoinFacts.QualifiedTailAsOn | core/fdw_manager.py:157-160 | `JOIN s.t AS a ON c` records the whole `s.t` as the table, with alias `a`. |
| JoinFacts.JoinClauseFound | core/fdw_manager.py:157-180 | A last clause `JOIN t ON c` makes the scan record exactly that one clause. |
| JoinFacts.JoinConditionTakesWhere | core/fdw_manager.py:157-180 | In `… JOIN t ON a = b WHERE x = 1` with no `)`, the recorded condition is `a = b WHERE x = 1`. |
| ParseExamples.JoinedPieces | core/fdw_manager.py:206 | Two comma-free pieces around the word `JOIN` are split there. |
| ParseExamples.CutBeforeOn | core/fdw_manager.py:203 | The FROM text is cut where its first word `ON` begins. |
| ParseExamples.FromJoinedPair | core/fdw_manager.py:186-235 | `t1 a1 JOIN t2 a2 ON …` gives the FROM items `t1` with alias `a1` and `t2` with alias `a2`. |
| ParseExamples.BareAliasJoin | core/fdw_manager.py:157-160 | `JOIN s.t a x` with a bare alias `a` (not `as` or `on`) is not matched. |
| ParseExamples.SimpleQueryParsed | core/fdw_autotest.py:71-73 | `SELECT id, name FROM public.users` parses to the columns `id`, `name`, the one table `public.users`, no alias, no join, an empty WHERE and no `*`. |
| ParseExamples.JoinQueryColumns | core/fdw_autotest.py:75-86 | The columns of the JOIN query are `u.id` and `o.product`. |
| ParseExamples.JoinQueryFrom | core/fdw_autotest.py:75-86 | Its FROM items are `public.users` as `u` and `public.orders` as `o`. |
| ParseExamples.JoinQueryJoins | core/fdw_autotest.py:75-86 | The JOIN scan records no clause on it, because `o` is a bare alias. |
| ParseExamples.JoinQueryWhere | core/fdw_autotest.py:75-86 | Its WHERE text is `u.age > 30`. |
| ParseExamples.JoinQueryParsed | core/fdw_autotest.py:75-86 | The JOIN query parses to the tables `public.users` and `public.orders`, the aliases `u` → `public.users` then `o` → `public.orders`, the WHERE text `u.age > 30`, no `*`, and no join. |
| Resolver.Resolve | core/fdw_manager.py:292-302 | A table that is a mapping key stays as it is, and every resolved name is a mapping key. |
| Resolver.ResolveByLastSegment | core/fdw_manager.py:292-302 | For a name that is not a key: one key with the same last dot-segment replaces it, several give an ambiguity error listing all of them, and none gives not-found. |
| Resolver.CandidatesSpec | core/fdw_manager.py:294-295 | The candidates are exactly the mapping keys whose last segment equals the name's, in mapping order. |
| Resolver.ExactNameWins | core/fdw_manager.py:292 | A name present in the mapping resolves to itself, even when another schema holds a table of the same name. |
| Resolver.LastSegment | core/fdw_manager.py:294 | `name.split('.')[-1]`: a dot-free text no longer than the name. |
| Resolver.LastSegmentSuffix | core/fdw_manager.py:294 | The last segment is the suffix of the name right after its last dot, or the whole name when there is no dot. |
| Resolver.SplitSchema | core/fdw_manager.py:307-311 | Splits at the first dot, and joining the two parts with a dot gives the name back. The schema is `public` when there is no dot. |
| Resolver.SplitSchemaRoundTrip | core/fdw_manager.py:307-309 | `schema + "." + table` with a dot-free schema splits back into that schema and table. |
| Resolver.InfoFor | core/fdw_manager.py:304-324 | A table's record holds its connection, its schema and table name, and as alias the first query alias bound to it, else the table name. |
| Resolver.ResolveAllOk | core/fdw_manager.py:291-302 | Resolution succeeds exactly when every table resolves, and then lists what each table resolves to. |
| Resolver.ResolveAllErr | core/fdw_manager.py:291-302 | A failure carries the error of the first table that does not resolve. |
| Resolver.ResolveTables | core/fdw_manager.py:290-324 | The loop fails exactly when some table does not resolve, with that table's error. Otherwise `table_info` has the resolved names once each, in order of first appearance, each with its record. |
| Resolver.ResolutionSpec | core/fdw_manager.py:290-324 | Ties the loop's fold to `ResolveAll`: same success, same error, and distinct recorded keys. |
| Resolver.ResolutionStops | core/fdw_manager.py:298-302 | After the first failing table, the rest of the loop does not run. |
| Resolver.RecordNext | core/fdw_manager.py:318-324 | Storing one more record keeps `table_info` in step with the resolved names. |
| Resolver.ApplicableRules | core/fdw_manager.py:522-532 | Returns exactly the rules, in configuration order, whose every table is a resolved table. |
| Dict.PutKeys | core/fdw_manager.py:318 | Assigning a dictionary key keeps the key order for a present key, and appends a new key last. |
| Dict.PutGetSame | core/fdw_manager.py:318 | Reading a key back gives what was stored. |
| Dict.PutGetOther | core/fdw_manager.py:390 | Storing under one key leaves every other key as it was. |
| Dict.KeyOf | core/fdw_manager.py:314 | Finds the key of the first entry whose value is `v`, and finds one exactly when some entry has value `v`. |
| Planner.ExtractTableWhere | core/fdw_manager.py:534-552 | Returns the kept fragments joined with ` AND `, and `''` for an empty WHERE. |
| Planner.KeptSpec | core/fdw_manager.py:534-552 | A fragment is kept exactly when it is a non-empty stripped ` AND `-piece that names `alias.`, or has no dot but an `=`. |
| Planner.SingleCondition | core/fdw_manager.py:534-552 | A WHERE without ` AND ` is kept whole (stripped) or dropped whole. |
| Planner.ColumnsForTable | core/fdw_manager.py:554-572 | The loop returns `TableColumns`: `['*']` at the first `*` or when nothing was picked. |
| Planner.TableColumns | core/fdw_manager.py:554-572 | Never empty. It is `['*']` whenever the query selects `*`. |
| Planner.TableColumnsPicks | core/fdw_manager.py:558-572 | Without `*` in the query, it is `['*']` when no column gives a pick. Otherwise it is the picks, and a name is requested exactly when some column gives it. |
| Planner.PickColumn | core/fdw_manager.py:562-570 | An unqualified column is kept. A qualified column gives something only when it is the dot-free alias or the full name followed by `.` and a dot-free name, and then it gives that name. |
| Planner.PickAliasQualified | core/fdw_manager.py:562-565 | `alias.col` of this table, both parts dot-free, gives `col`. |
| Planner.PickFullQualified | core/fdw_manager.py:562-567 | `schema.table.col` where `schema.table` is this table, all parts dot-free, gives `col`. |
| Planner.PickedSpec | core/fdw_manager.py:558-572 | There are no more picks than columns. A name is picked exactly when some column gives it, and there are no picks exactly when no column gives one. |
| Planner.UnqualifiedColumnsKept | core/fdw_manager.py:562-570 | Without qualified columns, every column is requested from every table, in order. |
| Planner.CollectJoinParams | core/fdw_manager.py:346-360 | The nested loops accumulate exactly `JoinValues`: per rule that names the table, the distinct key cells of each other, already fetched table that has the key column. |
| Planner.CollectRuleParams | core/fdw_manager.py:349-360 | The inner loop over one rule's tables accumulates exactly `RuleValues`. |
| Planner.ValuesFromSpec | core/fdw_manager.py:350-360 | One table contributes exactly the cells of its `alias.key` column, when it is another table and has been fetched. |
| Planner.RuleValuesSpec | core/fdw_manager.py:349-360 | A value is collected for a rule exactly when some other fetched table of that rule has it in its `alias.key` column. |
| Planner.JoinValuesSpec | core/fdw_manager.py:346-360 | `join_params` holds a value exactly when some rule naming the table has another fetched table whose `alias.key` column holds that value. |
| Planner.JoinValuesSound | core/fdw_manager.py:346-360 | Every collected value comes from a rule that names the table and another fetched table of that rule. |
| Planner.JoinValuesComplete | core/fdw_manager.py:346-360 | Every value that such a rule and table supply is collected. |
| Planner.NothingFetchedNoValues | core/fdw_manager.py:346-360 | Before anything is fetched there are no IN values. |
| Planner.UnruledNoValues | core/fdw_manager.py:347-348 | A table that no rule names gets no IN values. |
| Planner.InFilter | core/fdw_manager.py:363-365 | There is an IN filter exactly when there are values. |
| Planner.StaleInKey | core/fdw_manager.py:363-365 | When the last applicable rule does not name the table, the values all come from earlier rules, yet the filter uses the last rule's key. |
| Planner.Conditions | core/fdw_manager.py:340-368 | The table's WHERE fragments come first, then the IN filter. There are none exactly when both are absent. |
| Planner.PlanStatement | core/fdw_manager.py:332-368 | Builds the statement `PlanFor` describes: column list, `FROM schema.table`, the conditions joined with ` AND `, and the IN values. |
| Planner.FetchOne | core/fdw_manager.py:370-387 | Succeeds exactly when the backend answers and every row has the described width. A backend error is passed on. The rows are the backend's rows, and column `j` is `alias.` + the backend's `j`-th column name. |
| Planner.FetchAll | core/fdw_manager.py:330-390 | The loop equals `FetchSpec`: one fetch per resolved table in `table_info` order, where the first failure ends the query. |
| Planner.FetchedFrames | core/fdw_manager.py:330-390 | After a successful loop, `dfs` has one frame per resolved table, in `table_info` order, each qualified by that table's alias. |
| Planner.FetchContinues | core/fdw_manager.py:330-390 | Each turn of the loop stores the next table's frame or fails with its error. |
| Planner.FetchStops | core/fdw_manager.py:330-390 | Once a fetch fails, the whole loop fails with that error. |
| Merger.GetJoinKeys | core/fdw_manager.py:574-600 | `None` exactly when no pair was found. Otherwise the left and right keys are equal in number, every left key is an available merged column, and no right key has a dot. |
| Merger.UnrelatedJoinIgnored | core/fdw_manager.py:580-581 | A JOIN clause about another table contributes no keys. |
| Merger.ExplicitJoinFails | core/fdw_manager.py:401-414 | Explicit keys never work on fetched frames: the bare right key names no `alias.column` column, so the merge raises `KeyError` and the step fails. |
| Merger.LeftMerge | core/fdw_manager.py:405-414 | Succeeds exactly when the keys pair up and every key names a column. The result is rectangular. |
| Merger.LeftMergeColumns | core/fdw_manager.py:405-414 | The merged columns are those of either side that do not end in `_DROP`. A clashing right column is dropped and the left one kept. |
| Merger.LeftMergeKeepsRows | core/fdw_manager.py:405-414 | A left merge does not lose rows. Each output row comes from one accumulated row, in order, and keeps that row's cells in every column not ending in `_DROP`. Every accumulated row appears. |
| Merger.LeftMergeUniqueRight | core/fdw_manager.py:405-414 | With distinct right key cells, the merge has exactly one row per accumulated row. |
| Merger.AtMostOneMatch | core/fdw_manager.py:405-412 | With distinct right keys, a left row matches at most one right row. |
| Merger.MatchingMatches | core/fdw_manager.py:405-412 | Every matched right row agrees with the left row on the key cells. |
| Merger.RowGroup | core/fdw_manager.py:405-412 | When no right row matches, the left row gives one row padded with missing cells. Otherwise it gives one row per matching right row, in right order: the left row followed by that right row. |
| Merger.MatchingIsFilter | core/fdw_manager.py:405-412 | The matching right rows are exactly the right rows whose key cells equal the left row's, in right order. |
| Merger.NoMatchingRow | core/fdw_manager.py:405-412 | There are no matching rows exactly when no right row agrees with the left row on the keys. |
| Merger.LeftMergeRightCells | core/fdw_manager.py:405-414 | The left join proper. Each output row comes from one left row, in order, and keeps its cells. Under every right column that no left column shadows, it holds the cells of one right row that matches that left row, or missing cells when none matches. Every matching pair of a left and a right row appears. |
| Merger.DropSuffixed | core/fdw_manager.py:414 | Keeps exactly the columns that do not end in `_DROP`, in their order, and every row. Each kept cell is the row's cell in that column. |
| Merger.DropKeepsCells | core/fdw_manager.py:414 | A kept column keeps every row's cell. |
| Merger.KeptIndex | core/fdw_manager.py:414 | A kept label's first place among the kept labels points back to its first place among all labels. |
| Merger.Concat | core/fdw_manager.py:445 | Side by side by position: row `i` is row `i` of each side, padded with missing cells, and the length is the longer side's. |
| Merger.ConcatKeepsRows | core/fdw_manager.py:445 | Side by side keeps every row of the accumulated frame at its own position, with its cells. |
| Merger.ConcatWellFormed | core/fdw_manager.py:445 | Side by side keeps rectangular frames rectangular. |
| Merger.RuleJoinSpec | core/fdw_manager.py:419-441 | Picks the first rule that names the table and another table in `dfs`, and that rule's first such table. It finds none exactly when no rule qualifies. |
| Merger.FindRuleJoin | core/fdw_manager.py:419-441 | The loop with `break` picks what `RuleJoin` picks. |
| Merger.FirstOther | core/fdw_manager.py:422-424 | `common_tables[0]` is a rule table in `dfs` other than the table. It exists exactly when there is one. |
| Merger.MergeOne | core/fdw_manager.py:400-445 | One turn of the merge loop: explicit keys, else the first qualifying rule, else concat. |
| Merger.MergeAll | core/fdw_manager.py:393-445 | The merge equals `Merged`: a single frame as it is, otherwise each further table merged into the first in `dfs` order. |
| Merger.MergeLoop | core/fdw_manager.py:400-445 | The loop over the further tables equals `MergeFrom`: it merges them one by one into the first, and the first failure ends it. |
| Merger.MergeNext | core/fdw_manager.py:400-445 | Each turn of the loop merges one more table into the merge so far. |
| Merger.MergeStops | core/fdw_manager.py:400-445 | A failed turn ends the merge with its error. |
| Merger.MergeStepKeepsRows | core/fdw_manager.py:400-445 | Each merge step keeps every accumulated row. The rows reappear in order, at distinct positions, with their cells in every column not ending in `_DROP`. |
| Merger.MergeFromKeepsRows | core/fdw_manager.py:397-445 | The merged result is rectangular and keeps every row of the first fetched frame, in order, with its cells in the kept columns. |
| Merger.SingleFrameUnchanged | core/fdw_manager.py:393-394 | A single fetched frame is the result, unchanged. |
| Merger.NoFrameFails | core/fdw_manager.py:397-398 | With no fetched frame the merge step fails. |
| WhereFilter.QualifiedNameStripped | core/fdw_manager.py:658 | The qualifier rewrite turns `table.column` into `column`. |
| WhereFilter.NoDotUnchanged | core/fdw_manager.py:658 | Text without a dot is left alone by the qualifier rewrite. |
| WhereFilter.GreaterOrEqualMangled | core/fdw_manager.py:659-660 | `=` → `==` runs first, so `>=` comes out as `>==`. |
| WhereFilter.NoSingleQuoteLeft | core/fdw_manager.py:659-666 | After the replace chain, no single quote is left. |
| WhereFilter.ApplyWhereManually | core/fdw_manager.py:670-700 | The mask loop followed by `df[mask]` returns `ManualFilter`. |
| WhereFilter.ManualFilter | core/fdw_manager.py:670-700 | Same columns. The rows are an in-order subsequence of the input, and a row is kept exactly when it passes every ` AND ` test. |
| WhereFilter.NarrowMask | core/fdw_manager.py:676-698 | After the loop, a mask entry is true exactly when its row passes every test. |
| WhereFilter.UnknownColumnsKeepAll | core/fdw_manager.py:679-698 | Tests on columns the frame lacks raise `KeyError`, which is caught, so every row is kept. |
| WhereFilter.PostFilter | core/fdw_manager.py:447-456 | Step 4 equals `PostFiltered`: `query()` on a non-empty result with a WHERE clause, and the manual filter when `query()` fails. |
| WhereFilter.FallbackNarrows | core/fdw_manager.py:451-456 | When `query()` fails, the result keeps the columns and exactly the rows that pass every test of the prepared condition, in order. |
| WhereFilter.FillNull | core/fdw_manager.py:459-460 | Same shape. Present cells are unchanged and every missing cell becomes `'NULL'`. |
| Engine.RunQuery | core/fdw_manager.py:285-460 | The pipeline after parsing equals `Run`: resolve, select rules, fetch, merge, post-filter, fill. |
| Engine.ExecuteQuery | core/fdw_manager.py:280-460 | A parse error happens exactly when the query lacks `select`…`from`. Otherwise the result is `Run` on the query's parse, with its tables taken in some order that visits each once. A successful result has no missing cell. |
| Engine.TableOrder | core/fdw_manager.py:291 | Iterating the table set visits each table exactly once. |
| Engine.RunNeverParseFailed | core/fdw_manager.py:285-460 | After parsing, a query fails only with a resolution or execution error. A successful result has no missing cell. |
| Engine.UnresolvedTableFails | core/fdw_manager.py:291-302 | A table that resolves to no key, or to several, fails the query with not-found or ambiguity, whatever the table order. |
| Engine.RecordsDetermined | core/fdw_manager.py:318-324 | `table_info` is determined by the resolved names. |
| Dialogs.TableMappingEntry | gui/dialogs_main.py:32-45 | Rejects a table without `.`, then an empty connection. Otherwise returns the stripped (table, connection) pair. |
| Dialogs.TableMappingDialog.Save | gui/dialogs_main.py:32-45 | Sets `result` exactly when the entries pass, and leaves it unchanged otherwise. |
| Dialogs.SavedMappingStable | gui/dialogs_main.py:22-45 | Reopening the dialog on a saved pair and saving gives the same pair. Once stored, the table resolves to itself with its connection and schema. |
| Dialogs.JoinRuleEntry | gui/dialogs_main.py:87-118 | An empty key is rejected first, then empty tables text. The result exists exactly when every listed table is known, and is then {tables, key, join type}. Unknown tables are reported. |
| Dialogs.TableList | gui/dialogs_main.py:101-102 | Returns the non-empty stripped comma pieces, as an in-order subsequence, and includes every such piece. |
| Dialogs.UnknownEmpty | gui/dialogs_main.py:105-111 | There are no unknown tables exactly when every listed table is known. |
| Dialogs.CommasOnlyAccepted | gui/dialogs_main.py:87-118 | A tables text of commas only passes every check and gives a rule over no table. |
| Dialogs.TablesRoundTrip | gui/dialogs_main.py:80-102 | Reading back tables shown joined by `", "` gives the same tables. |
| Dialogs.RuleReopenedUnchanged | gui/dialogs_main.py:74-117 | Reopening the rule dialog on an accepted rule and saving gives the same rule. |
| Dialogs.JoinRuleDialog.Save | gui/dialogs_main.py:87-118 | Sets `result` exactly when `JoinRuleEntry` succeeds, and otherwise reports its error and leaves `result` unchanged. |
| Dialogs.EditConnectionWindow.Validate | gui/dialogs_main.py:226-250 | The appends of `_validate` build exactly `FormErrors`, in order. |
| Dialogs.FormErrorsSpec | gui/dialogs_main.py:226-250 | No errors exactly when name, host, dbname and user are non-empty once stripped, the password is non-empty and the port is all digits, plus, when adding, the name is new. Each shown error appears once, in the fixed order. |
| Dialogs.ErrorsUpToSpec | gui/dialogs_main.py:226-250 | The first `k` checks report exactly the errors among them that the form shows, in check order. |
| Dialogs.DuplicateOnlyWhenAdding | gui/dialogs_main.py:237-238 | A duplicate name is an error only in `add` mode. |
| Dialogs.OrderIndex | gui/dialogs_main.py:226-250 | The validation order is a bijection between errors and positions. |
| Dialogs.Stored | gui/dialogs_main.py:272-279 | The parameters are stored under the new name. An edit under a new name removes the old name, and every other connection is unchanged. |
| Dialogs.StoredSize | gui/dialogs_main.py:272-279 | Saving changes the number of connections by at most one. Adding grows it exactly when the name is new. |
| Dialogs.EditConnectionWindow.Save | gui/dialogs_main.py:252-279 | Nothing changes while the form shows errors. Otherwise `connection_params` becomes `Stored(...)` with the parameters the form gives. |
| Dialogs.SchemaMappingEntry | gui/dialogs_main.py:371-387 | Rejects an empty schema, then a connection that is not offered. Otherwise returns the lower-cased schema and the connection. |
| Dialogs.SchemaMappingStable | gui/dialogs_main.py:360-387 | Reopening the dialog on a saved mapping and saving gives the same mapping. |
| Dialogs.MappingDialog.Save | gui/dialogs_main.py:371-387 | Sets `result` exactly when `SchemaMappingEntry` succeeds, and otherwise reports its error and leaves `result` unchanged. |

## Left out

- Character classes are ASCII only: `\s`, `\w`, `str.lower` and `str.isdigit` are not modelled on Unicode.
- The iteration order of the parsed table set is unspecified in Python. The model takes it as a parameter and proves the properties for every order.
- Backends are one oracle: `get_connection`, cursor execution and `query_database` (core/fdw_manager.py:102-122, 373-381). The oracle returns column names and rows, or a driver error.
- `DataFrame.query(engine='python')` (core/fdw_manager.py:453) is an oracle that may fail.
- The lookaround-regex renaming of bare columns in `_prepare_where_condition` (core/fdw_manager.py:648-656) is a parameter. Only the qualifier stripping and the `.replace` chain (658-666) are modelled.
- The three-part-name rewrite of the WHERE text at core/fdw_manager.py:199 is dead code: lines 237-249 recompute the WHERE text without it. The model computes WHERE once, as those lines do.
- A comma inside a WHERE with no `ON` yields extra FROM pieces. The model reproduces this through `FromPieces`, but no lemma states it beyond `WhereTakenAsAlias`.
- `info['columns']` (core/fdw_manager.py:389) is written but never read in the modelled code, so it is not modelled.
- Cells are optional strings. pandas dtype coercion is not modelled, and numbers are compared as their text.
- WhereFilter.Rendered, WhereFilter.Passes: every missing cell renders as `nan`, as the NaN padding of a merge or concat does under `astype(str)`. A SQL NULL from the backend arrives as `None` in an object column and renders as `'None'`. The model does not tell the two apart, so in the fallback filter `col == 'None'` keeps such a row in the source but drops it in the model, and `col != 'nan'` does the reverse.
- Planner.ValuesFrom, Merger.Positions, Merger.LeftMerge, Merger.DropSuffixed, WhereFilter.ManualFilter: a repeated column label is looked up at its first position. Labels repeat when the query names a column twice (`SELECT u.id, u.id …`), because each fetched column gets the `alias.` prefix at core/fdw_manager.py:384-387. pandas then returns a frame, not a series, for that label. So `.unique()` at core/fdw_manager.py:359 raises `AttributeError`, `pd.merge` on a repeated key label raises `ValueError`, and selecting the kept labels at lines 414 and 439 repeats columns. The model states none of these errors. It is exact only for frames whose labels are distinct.
- Timing, logging, the `RuntimeError` wrapping of messages and the closing of connections (core/fdw_manager.py:462-475) are not modelled. Failures are a `QueryError` value.
- `.env` configuration I/O (`load_env_config`, `save_env_config`), credentials and the keyring are left out, as are Tk widgets and message boxes.
- The `isinstance` guard on `connection_params` (gui/dialogs_main.py:268-269) is left out: the registry is always a map.
- `int(port)` is modelled for ASCII digit strings only.
- `_validate_join_rule`, `_prepare_join_conditions`, `_extract_join_conditions`, `_parse_join_condition`, `_split_where_conditions` and `_merge_tables` are not reachable from `execute_query`, so they are left out.
- Missing `table_info` and `dfs` entries cannot occur, because their keys are the resolved names. The model gives those lookups an error branch instead of pandas' `KeyError`.
- Explicit JOIN keys always fail the merge (`Merger.ExplicitJoinFails`). The `IN` filter uses the last applicable rule's key (`Planner.StaleInKey`). Both are modelled as the code behaves.
- JoinMatches, MatchJoinTail: their own contracts state only the shape of a recognised clause. Which text is recognised is stated by the `JoinFacts` lemmas for `JOIN t ON c`, `JOIN t AS a ON c` and `JOIN s.t AS a ON c`, and by `BareAliasIsNotMatched` for a bare alias. A clause followed by another JOIN, or a `)` inside the condition, is covered by no lemma.
- FromPieces: the split at `join` words is stated only for one `JOIN` between two comma-free pieces (`ParseExamples.JoinedPieces`). Commas alone are covered by `FromPiecesSplitCommas`.
- ParseExamples.JoinQueryParsed: the test's statement is a multi-line text with indentation. The lemma states the parse of its whitespace-collapsed form, which is what `parse_sql` parses after line 137. That collapsing the raw text gives this form is not proved.
- Parser.FromItems: its contract only bounds the number of items. The items themselves are described through `FromItemOf`.
- Parser.WhereOf: its contract states only the no-`where` case. The cut at terminators is stated by `GroupByWinsOverLimit` and `NoTerminatorKeepsAll`.
