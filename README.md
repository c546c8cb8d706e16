# migrator — a verified model of the schema differ and its MySQL script writer

`migrator` is a Go library that turns Go struct definitions into MySQL tables
and produces migration scripts. The script brings a live database schema to
the schema the structs describe. This project models the part of the library
that does the work:

- **schema comparison** (`schema/schema.go`). `Table.CompareWith` walks two
  table descriptions and lists the column migrations that turn one into the
  other: drop, rename, modify and add a column, add or drop a unique index,
  and add, drop or update a foreign key. `SortMigrationsByOperationPriority`
  puts that list in the order of the operation enumeration.
- **query writing** (`query.go`). There is one function per kind of statement:
  `CREATE TABLE`, `DROP TABLE`, `ALTER TABLE … ADD/DROP/MODIFY/RENAME COLUMN`,
  `ADD/DROP CONSTRAINT` for foreign keys and unique indexes, and the
  drop-and-re-add of the foreign keys that sit on a dropped unique index.
- **the orchestrator** (`migrator.go`, `CreateMigration` and
  `createColumnMigrations`). It splits the desired and the existing tables into
  new, deleted and altered ones, and writes the up script and the down script.
- **naming utilities** (`utils/`): `Pluralize`, `ToSnakeCase`, `ToMysqlName`
  and the Go-to-MySQL type table `ToMysqlDataType`.

Modules, one per concern:

| file | module | contents |
|---|---|---|
| `strings.dfy` | `Strings` | ASCII case mapping, `strings.Join`, `strings.Fields`, `strings.TrimSpace`, prefix/suffix |
| `utils.dfy` | `Utils` | pluralisation, snake case, MySQL names, the type table |
| `schema.dfy` | `Schema` | tables, columns, references, migrations; the lookups; `CompareWith` as five loops proved against `Diff` |
| `schema_sort.dfy` | `SchemaSort` | the stable priority sort, in place on an array |
| `schema_facts.dfy` | `SchemaFacts` | what `Diff` emits, entity by entity; add/drop duality; a table against itself |
| `schema_examples.dfy` | `SchemaExamples` | the cases of `schema/schema_test.go`, as lemmas |
| `quoting.dfy` | `Quoting` | which backquoted identifiers a piece of SQL text names |
| `query.dfy` | `Query` | the statement builders; the builder loops as methods |
| `query_facts.dfy` | `QueryFacts` | the constraint names each statement uses, and the shape of each statement |
| `migrator.dfy` | `Migrator` | `CreateMigration`, `createColumnMigrations` and properties of the two scripts |

Go slices and maps are modelled as Dafny sequences and maps. A
`strings.Builder` becomes a string that each step extends. Code that builds
its result in a loop is a `method` proved against a specification function.
Straight-line code is a function. `SortMigrationsByOperationPriority` sorts an
`array` in place. Its `ensures` ties the result to `PrioritySorted`, the
migrations grouped by priority with their relative order kept. Separate lemmas
prove that `PrioritySorted` is sorted, a permutation and stable.

The database connection is not modelled: `CreateMigration` takes the tables
that `GetTables` would read as a parameter. The package-level
`renamedColumns` map, which `CompareWith` fills and `HasColumn` reads, is
instead passed explicitly from the first pass to the later ones.

## Model

| member | source | states |
|---|---|---|
| Schema.PriorityBound | schema/schema.go:10-22 | every migration kind has one of the nine positions of the `ColumnOperation` enumeration |
| Schema.ComparePrimary | schema/schema.go:279-287 | 0 exactly when both or neither column is a primary key, 1 exactly when only the argument is, -1 exactly when only the receiver is |
| Schema.HasColumn | schema/schema.go:223-230 | reports the first column that matches by name, or by a recorded rename, and by primary-key flag; `(false, -1)` exactly when no column matches |
| Schema.GetPrimaryKeyColumn | schema/schema.go:212-219 | returns a column exactly when some column is a primary key, and then it is the first such column |
| Schema.LookupIndex | schema/schema.go:268-270 | the column list of the first index entry with that name, or nothing exactly when no entry has that name |
| Schema.CompareUniqueIndex | schema/schema.go:268-274 | 0 exactly when the table has that index with exactly those columns, otherwise 1 |
| Schema.FindRelation | schema/schema.go:194-201 | the index of the first reference with the same table, column, referenced table and referenced column, or -1 exactly when there is none |
| Schema.DropPass | schema/schema.go:131-143 | the drop loop emits the dropped columns and the primary-key rename, and records the rename |
| Schema.AddPass | schema/schema.go:146-158 | the second column loop emits the added and the modified columns |
| Schema.IndexPass | schema/schema.go:159-178 | each unique-index loop emits one migration per index name that is missing or different on the other side |
| Schema.DropReferencePass | schema/schema.go:181-191 | the loop emits a drop for every reference that has no matching relation in the target |
| Schema.AddReferencePass | schema/schema.go:194-206 | the loop emits an add for every new relation and an update for every relation whose delete or update option changed |
| Schema.CompareWith | schema/schema.go:125-208 | the migrations are `Diff(t, dst)`: the five passes in source order |
| Schema.Equals | schema/schema.go:255-264 | no contract of its own; `SchemaFacts.EqualsIgnoresFlags`, `SchemaFacts.EqualsUpperCase`, `SchemaFacts.EqualsSymmetric`, `SchemaFacts.EqualsDefaultValue` and `SchemaFacts.EqualsIgnoresChangedDefault` state what it compares |
| SchemaFacts.EqualsIgnoresFlags | schema/schema.go:255-264 | column equality ignores the table name and the key, foreign-key and unique flags |
| SchemaFacts.EqualsUpperCase | schema/schema.go:255-264 | column equality is case-insensitive in name, type, nullability and extra |
| SchemaFacts.EqualsSymmetric | schema/schema.go:255-264 | column equality is symmetric |
| SchemaFacts.EqualsDefaultValue | schema/schema.go:255-264 | when the other attributes agree, columns differ exactly when both the validity and the text of their defaults differ |
| SchemaFacts.EqualsIgnoresChangedDefault | schema/schema.go:260-261 | two set defaults with different text count as equal |
| SchemaFacts.DroppedColumnsShape | schema/schema.go:131-143 | the drop pass emits only drops of non-key source columns, and renames of the source key to the target key |
| SchemaFacts.AddedOrModifiedShape | schema/schema.go:146-158 | the second pass emits only adds of non-key target columns, and modifies of a target column paired with the source column it matched |
| SchemaFacts.IndexNamesOnce | schema/schema.go:159-178 | no index name is emitted twice by one unique-index pass |
| SchemaFacts.IndexChangesDual | schema/schema.go:159-178 | the add pass and the drop pass over the same entries emit the same names, as adds and drops of the same columns |
| SchemaFacts.IndexChangesMember | schema/schema.go:159-178 | an entry is emitted exactly when it is present and the other side's `CompareUniqueIndex` says 1 |
| SchemaFacts.DroppedReferencesMember | schema/schema.go:181-191 | a reference is dropped exactly when it is in the source and has no matching relation in the target |
| SchemaFacts.AddedReferencesMember | schema/schema.go:194-206 | a reference is added exactly when it has no matching relation in the source; it is updated, paired with the first matching source reference, exactly when that reference's options differ |
| SchemaFacts.DiffPhase | schema/schema.go:125-208 | each migration kind in the diff comes from its own pass |
| SchemaFacts.DiffForeignKeys | schema/schema.go:181-206 | membership of drop, add and update foreign-key migrations in the diff, in both directions |
| SchemaFacts.DiffUniqueIndexes | schema/schema.go:159-178 | an index is added exactly when the source lacks it with those columns, and dropped exactly when the target does |
| SchemaFacts.ForeignKeyAddDrop | schema/schema.go:181-206 | a foreign key added from a to b is exactly one dropped from b to a |
| SchemaFacts.UniqueIndexAddDrop | schema/schema.go:159-178 | a unique index added from a to b is exactly one dropped from b to a |
| SchemaFacts.DiffDropColumn | schema/schema.go:131-143 | for a column whose name is non-empty and is the name of no target key column: it is dropped exactly when it is a non-key source column and the target has no non-key column of its name |
| SchemaFacts.DiffAddColumn | schema/schema.go:146-151 | for a column whose name is non-empty and is the name of no target key column: it is added exactly when it is a non-key target column and the source has no non-key column of its name |
| SchemaFacts.ColumnAddDrop | schema/schema.go:131-151 | for a column whose name is non-empty and is the name of no key column of either table: it is added from a to b exactly when it is dropped from b to a |
| SchemaFacts.DiffDropsNoPrimaryKey | schema/schema.go:131-143 | no drop in the diff removes a primary key; a key only ever appears as a rename to the target's key |
| SchemaFacts.AddedOrModifiedAppend | schema/schema.go:146-158 | the second pass handles each target column on its own |
| SchemaFacts.DiffModifyColumn | schema/schema.go:146-158 | for a non-key column whose name is non-empty and is the name of no target key column: it is modified exactly when it is a target column, the source's first non-key column of its name exists, and that column is not `Equals` to it |
| SchemaFacts.PrimaryKeyRename | schema/schema.go:133-140 | a single key under a new name becomes a rename, records the rename, and is also modified when the names differ in more than case |
| SchemaFacts.CompareWithItself | schema/schema.go:125-208 | a table with distinct non-empty column names, relations and index names has an empty diff with itself |
| SchemaExamples.ExamplePrimaryKey | schema/schema_test.go:10-29 | the key column of the test table is found |
| SchemaExamples.ExampleAddColumn | schema/schema_test.go:31-54 | a new `name` column gives exactly one add |
| SchemaExamples.ExampleDropColumn | schema/schema_test.go:56-79 | a removed `name` column gives exactly one drop |
| SchemaExamples.ExampleModifyColumns | schema/schema_test.go:81-111 | three changed columns give exactly three modifies, in column order |
| SchemaExamples.ExampleAddForeignKey | schema/schema_test.go:113-149 | a new reference gives exactly one foreign-key add |
| SchemaSort.SortMigrationsByOperationPriority | schema/schema.go:291-295 | the array ends up as `PrioritySorted` of what it held |
| SchemaSort.PrioritySortedIsSorted | schema/schema.go:291-295 | the arrangement is in non-decreasing priority |
| SchemaSort.PrioritySortedIsPermutation | schema/schema.go:291-295 | the arrangement holds the same migrations, with the same multiplicities |
| SchemaSort.PrioritySortedIsStable | schema/schema.go:291-295 | migrations of one kind keep their relative order (a stable sort) |
| SchemaSort.SortedIsPrioritySorted | schema/schema.go:291-295 | any sorted sequence with the same groups is that arrangement, so a stable sort has one result |
| SchemaSort.SortedDropsAndAdds | schema/schema.go:10-22 | after sorting, no foreign-key drop follows a column drop and no column add follows a foreign-key add |
| Query.TrailingAttributes | query.go:134-143 | extra text when non-empty, then the default when set, in that order |
| Query.CreateAttributes | query.go:21-32 | `NOT NULL` exactly when nullability is "NO", then the extra text and the default |
| Query.AddAttributes | query.go:85-100 | `PRIMARY KEY` for a key, otherwise `NOT NULL` when nullability is "NO", never both, then the extra text and the default |
| Query.ModifyAttributes | query.go:130-143 | `NOT NULL` exactly for a non-key column whose nullability is "NO", never `PRIMARY KEY` |
| Query.WriteJoined | query.go:41-46 | the loop writes the items separated by the separator, with none after the last |
| Query.WriteUniqueClauses | query.go:49-59 | the loop writes one unique constraint per index entry |
| Query.WritePrimaryKey | query.go:39-47 | the loop writes the key columns joined by ", " |
| Query.WriteForeignKeys | query.go:61-75 | the loop writes the foreign-key constraints joined by ",", and nothing when there are none |
| Query.CreateTableQuery | query.go:15-78 | the statement is the header, the column clauses, the key, the unique constraints, the foreign keys and the closing parenthesis |
| Query.AddUniqueIndexQuery | query.go:179-193 | the statement adds the named constraint over the columns joined by ", " |
| Query.ReferenceIndex | query.go:205 | the index of the first reference on that column, or -1 exactly when there is none |
| Query.ReferencesFor | query.go:204-209 | only references of the table on one of the columns, at most one per column |
| Query.WriteReferenceStatements | query.go:204-220 | each loop writes one statement per column whose first reference exists |
| Query.DropUniqueIndexQuery | query.go:195-222 | the notice when there are columns, the foreign-key drops, the constraint drop, then the foreign-key re-adds |
| Query.DropTableQuery | query.go:11-13 | no contract of its own; `QueryFacts.DropTableName`, `QueryFacts.DropTableInjective` and `QueryFacts.DropTableMentions` state where the name sits, that the name is determined, and that no constraint is named |
| Query.AddColumnQuery | query.go:80-108 | no contract of its own; `QueryFacts.AddColumnFrame` states the statement's shape, `QueryFacts.AddColumnMentions` the one inline constraint, `Query.AddAttributes` the attribute rules |
| Query.DropColumnQuery | query.go:110-122 | no contract of its own; requires a non-key column, where the source calls `log.Fatalf`; `QueryFacts.DropColumnFrame` and `QueryFacts.DropColumnMentions` state its shape and that it names no constraint |
| Query.ModifyColumnQuery | query.go:124-148 | no contract of its own; `QueryFacts.ModifyColumnFrame`, `QueryFacts.ModifyColumnMentions` and `Query.ModifyAttributes` state its shape, names and attributes |
| Query.RenameColumnQuery | query.go:150-155 | no contract of its own; `QueryFacts.RenameColumnFrame` and `QueryFacts.RenameColumnMentions` state its shape and that it names no constraint |
| Query.AddReferenceQuery | query.go:157-166 | no contract of its own; `QueryFacts.AddReferenceFrame` and `QueryFacts.AddReferenceMentions` state its shape and its one `fk.<table>.<column>` name |
| Query.DropReferenceQuery | query.go:168-177 | no contract of its own; `QueryFacts.DropReferenceFrame` and `QueryFacts.DropReferenceMentions` state its shape and the name used twice |
| QueryFacts.DropTableMentions | query.go:11-13 | `DROP TABLE` names no constraint |
| QueryFacts.DropTableName | query.go:11-13 | the statement holds the table name at a fixed place |
| QueryFacts.DropTableInjective | query.go:11-13 | different table names give different statements |
| QueryFacts.DropColumnMentions | query.go:110-122 | `DROP COLUMN` names no constraint |
| QueryFacts.DropColumnFrame | query.go:110-122 | the statement alters the column's table and ends with ";\n" |
| QueryFacts.AddColumnMentions | query.go:80-108 | `ADD COLUMN` names exactly the inline unique constraint, and only for a unique non-key column |
| QueryFacts.AddColumnFrame | query.go:80-108 | the statement alters the table and ends with ";\n" |
| QueryFacts.ModifyColumnMentions | query.go:124-148 | `MODIFY COLUMN` names no constraint |
| QueryFacts.ModifyColumnFrame | query.go:124-148 | the statement alters the table and ends with ";\n" |
| QueryFacts.RenameColumnMentions | query.go:150-155 | `RENAME COLUMN` names no constraint |
| QueryFacts.RenameColumnFrame | query.go:150-155 | the statement alters the table and ends with ";\n" |
| QueryFacts.AddReferenceMentions | query.go:157-166 | adding a foreign key names its constraint `fk.<table>.<column>` once |
| QueryFacts.AddReferenceFrame | query.go:157-166 | the statement alters the reference's table and ends with ";\n" |
| QueryFacts.DropReferenceMentions | query.go:168-177 | dropping a foreign key names the same `fk.<table>.<column>` twice: the constraint, then its index |
| QueryFacts.DropReferenceFrame | query.go:168-177 | the statement alters the reference's table and ends with ";\n" |
| QueryFacts.AddUniqueIndexMentions | query.go:179-193 | adding a unique index names exactly `uc.<index>` |
| QueryFacts.AddUniqueIndexFrame | query.go:179-193 | the statement alters the table and ends with ";\n" |
| QueryFacts.DropUniqueIndexMentions | query.go:195-222 | dropping a unique index names each affected foreign key twice, then `uc.<index>`, then each foreign key once more |
| QueryFacts.DropUniqueIndexNotice | query.go:201-203 | the script opens with the notice exactly when the index has columns |
| QueryFacts.ReferencesForComplete | query.go:204-209 | every column that has a reference contributes its first reference |
| QueryFacts.CreateTableMentions | query.go:15-78 | `CREATE TABLE` names the unique constraints in entry order, then the foreign keys in reference order |
| QueryFacts.CreateTableFrame | query.go:15-78 | the statement starts with the header and ends with "\n);\n" |
| Quoting.MentionsAppend | query.go:15-78 | the constraint names of concatenated statements are those of each statement, in order |
| Migrator.Unmatched | migrator.go:485-501 | the new tables (desired, not in the database) and the deleted tables (in the database, not desired), by name |
| Migrator.AlteredOrder | migrator.go:485-491 | the names, in desired order, of the desired tables that exist in the database |
| Migrator.LastByName | migrator.go:485-501 | a map from exactly the shared names to the last table of `xs` with that name, as the overwrites at lines 489 and 499 leave it |
| Migrator.AlteredPairs | migrator.go:513-514 | one pair per altered name, joining the database table and the desired table |
| Migrator.PairsFromBothSides | migrator.go:485-501 | each pair's first table is from the database, its second from the desired schema, both with the name in the order list |
| Migrator.SplitDesired | migrator.go:485-492 | the first loop yields the new tables, the desired side of each pair and the order list |
| Migrator.SplitDatabase | migrator.go:495-501 | the second loop yields the deleted tables and the database side of each pair |
| Migrator.MigrationText | migrator.go:538-566 | no contract of its own; the statements `createColumnMigrations` writes for one migration, which `Migrator.WriteColumnMigration` is proved to write; `Migrator.UpdateRecreatesSameKey` states what an update writes |
| Migrator.WriteColumnMigration | migrator.go:538-566 | each migration kind writes its statement; an update writes the drop then the add |
| Migrator.WriteColumnMigrations | migrator.go:536-569 | the loop writes the statements of the migrations in order |
| Migrator.WriteCreates | migrator.go:503-510 | the loop writes one `CREATE TABLE` per table, in order |
| Migrator.WriteDropsBackward | migrator.go:524-530 | the loop writes one `DROP TABLE` per table, last table first |
| Migrator.SortMigrations | migrator.go:517-518 | the sorted copy is `PrioritySorted` of the migrations |
| Migrator.WritePair | migrator.go:514-520 | the up script gets the sorted diff from database to desired; the down script gets the reverse diff |
| Migrator.WriteAltered | migrator.go:513-521 | the loop writes the pairs in the order list |
| Migrator.CreateMigration | migrator.go:473-534 | up: creates, altered pairs, drops of deleted tables in reverse; down: re-creates of deleted tables, reverse diffs, drops of new tables in reverse |
| Migrator.SortedDiffDropsNoKey | migrator.go:543 | no column migration the orchestrator writes reaches the fatal primary-key drop |
| Migrator.MigrationsTextAppend | migrator.go:536-569 | the statements of two migration lists are the statements of each, in order |
| Migrator.CreateTextsAppend | migrator.go:503-510 | creating two lists of tables writes each list's statements in order |
| Migrator.DropsBackwardAppend | migrator.go:524-530 | dropping two lists backwards drops the second list before the first |
| Migrator.NoDifferencesNoScripts | migrator.go:473-534 | with no new or deleted table and no difference in any pair, both scripts are empty |
| Migrator.UnchangedSchema | migrator.go:473-534 | comparing a well-formed schema with itself gives two empty scripts |
| Migrator.UpdateKeepsKeyName | schema/schema.go:194-206 | an updated foreign key keeps the constraint name of the one it replaces |
| Migrator.UpdateRecreatesSameKey | migrator.go:557-559 | an update drops the constraint and its index and adds it back, all under one name |
| Utils.IsVowel | utils/pluralize.go:35-38 | no contract of its own; the five lower-case vowels, used by the 'y' rule stated in `Utils.PluralizeFinalY` |
| Utils.Pluralize | utils/pluralize.go:6-32 | no contract of its own; requires `PluralizeDefined`, which excludes only the input on which the source panics; the lemmas `Utils.Pluralize*` below state its rules |
| Utils.PluralizeLastChar | utils/pluralize.go:6-32 | every plural ends in 's' in either case; the word comes back unchanged exactly when it already ends in 's', and otherwise gets longer |
| Utils.PluralizeIdempotent | utils/pluralize.go:11-13 | pluralising a plural returns it unchanged |
| Utils.PluralizeFinalY | utils/pluralize.go:16-18 | a final 'y' after a consonant becomes "ies"; after a vowel it takes "s" |
| Utils.PluralizeSibilant | utils/pluralize.go:19-21 | endings "o", "ch" and "sh" take "es" |
| Utils.PluralizeFricative | utils/pluralize.go:22-28 | endings "f" and "fe" become "ves" |
| Utils.PluralizeDefault | utils/pluralize.go:31 | a word with none of the special endings takes "s" |
| Utils.ToSnakeCase | utils/snake_case.go:8-15 | the result holds no white space |
| Utils.SnakeCasePieces | utils/snake_case.go:8-15 | the result is the non-empty, space-free fields of the split text joined by "_", and these hold exactly the non-space characters of the input |
| Utils.SnakeCaseBoundaries | utils/snake_case.go:8-15 | on text without spaces, the result puts "_" between each lower-case letter and the upper-case letter after it, and changes nothing else |
| Utils.SnakeCaseUserID | utils/snake_case.go:8-15 | "UserID" becomes "User_ID" |
| Utils.SnakeCaseFixpoint | utils/snake_case.go:8-15 | text without spaces or lower-upper boundaries is returned unchanged |
| Utils.SnakeCaseIdempotent | utils/snake_case.go:8-15 | converting twice is converting once |
| Utils.ToMysqlName | utils/pluralize.go:40-42 | the table name holds no white space and no upper-case letter |
| Utils.ToMysqlNameIdempotent | utils/pluralize.go:40-42 | a table name maps to itself |
| Utils.ToMysqlDataType | utils/mysql_data_type.go:8-27 | succeeds exactly when the trimmed name is a key of the table `MysqlTypes` (string to varchar(255); int, int32, int64 to bigint; uint, uint32, uint64 to bigint unsigned; float32 to float; float64 to double; time.Time to datetime(3); bool to tinyint(1)), and then yields that table's type; otherwise fails with exactly the source's message |
| Utils.MysqlDataTypeIgnoresPadding | utils/mysql_data_type.go:9 | white space around the name changes neither the outcome nor the type |

## Left out

- The database connection, `GetTables`, `DescribeTable`, `GetReferences`, `getUniqueIndexes` and `getCurrentVersion` read from MySQL. They are not modelled; `CreateMigration` takes the existing tables as a parameter.
- `ParseTablesFromStructs`, `parseTableFromStruct`, `parseStructField` and `newRelation` work by reflection over Go structs and tags. They are not modelled; tables are given as values.
- `MigrateAndSave` writes files and `PrettyPrint` prints. Both are I/O and are not modelled.
- `NewMigrator`, `NewReference` and `NewColumnMigration` only fill records; the datatype constructors take their place.
- Migrator.CreateMigration: the `verbose` parameter does nothing in the source, so it is not a parameter of the model. Neither is the local `droppedColumns` of `CompareWith` (schema/schema.go:128,139), which is filled but never read.
- Query.DropColumnQuery: `log.Fatalf` on a primary key ends the process. It is modelled as the precondition `!c.primaryKey`. `Migrator.SortedDiffDropsNoKey` proves the orchestrator never reaches it.
- Migrator.CreateMigration: when exactly one side of an altered pair has a primary-key column, `CompareWith` in one of the two directions dereferences the nil result of `GetPrimaryKeyColumn` at schema/schema.go:134 and panics. The model requires `PairsComparable`, which excludes exactly those pairs.
- Go map iteration order: `IndexToUniqueCols` is a map in the source. It is modelled as a list of entries, and the model's results follow the list's order. On Go's randomised order the unique-index statements may come out in another order.
- Duplicate table names are not excluded. With two desired tables of one name, the source keeps the last one in `alteredTables` and repeats the name in the order list (migrator.go:490). With two database tables of one name, it keeps the last one as `First` (migrator.go:499), and the name appears in the order list only once. The model does the same: `LastByName` is proved to hold the last table of each name.
- Pointer aliasing: the source passes `*Table` and `*Column` and mutates `alteredTables` entries through pointers. The model uses values, so it does not capture sharing between these structures.
- SchemaSort.SortMigrationsByOperationPriority: `slices.SortStableFunc` is modelled by an insertion sort. Its result is proved to be the unique stable arrangement, so any stable sort gives the same array.
- The `strings.Builder` code in `query.go` without loops is written as functions of strings. Only its loops are methods.
- The two loops of `DropUniqueIndexQuery` are one generic method, `Query.WriteReferenceStatements`, called with the drop statement and then with the add statement.
- Strings: case mapping (`strings.ToLower`, `strings.ToUpper`) and white space (`strings.Fields`, `strings.TrimSpace`) are ASCII only. Unicode letters and spaces outside ASCII are not modelled.
- Utils.Pluralize: `lowered[len(lowered)-2]` (utils/pluralize.go:16) panics on the one-letter words "y" and "Y". The model requires `PluralizeDefined`, which excludes exactly those two inputs.
- Utils.PluralizeDefault: it states the "s" rule only for a word whose last letter is none of s, y, o, h, f, e. Words ending in e or h without "fe", "ch" or "sh" also get "s" in the model; the lemma does not cover them.
- The constraint-name lemmas in `QueryFacts` and `Migrator.UpdateRecreatesSameKey` need names without backquotes (`PlainTable`, `PlainReference`). A name with a backquote would change how MySQL reads the statement.
- SchemaFacts.EqualsDefaultValue: the source's test `c.DefaultValue.Valid != col.DefaultValue.Valid && c.DefaultValue.String != col.DefaultValue.String` treats two set defaults with different text as equal (`SchemaFacts.EqualsIgnoresChangedDefault`). The model keeps this behaviour as written.
- Column matching is kept as written. `HasColumn` matches a column by its name or by `renamedColumns[c.Name]`, and a name missing from that map reads as "" (schema/schema.go:225). So a column named "" matches any column with the same key flag that the map has no entry for, and a non-key column that shares its name with the old key can match through the recorded rename. The model keeps both matches. This is why `SchemaFacts.DiffDropColumn`, `SchemaFacts.DiffAddColumn`, `SchemaFacts.ColumnAddDrop` and `SchemaFacts.DiffModifyColumn` state their rules only for non-empty names that no key column uses.
- SchemaFacts.PrimaryKeyRename: a renamed key is also emitted as `MODIFY COLUMN` when the names differ other than in case, as the source does. The model keeps both migrations.
- The regular expression of `ToSnakeCase` is modelled only for the pattern it uses, `([a-z])([A-Z])`, by a scan; there is no general regular-expression engine.
