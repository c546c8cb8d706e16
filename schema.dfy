/**
  The schema model of the `schema` package and its comparator: tables,
  columns, foreign-key references and unique indexes as plain values, and the
  operations that turn one snapshot of a table into another.
 */
module Schema {
  import opened Strings

  datatype Option<T> = None | Some(value: T)

  /** `sql.NullString`: a text that may be absent.  `str` is kept even when
      `valid` is false, since column equality reads it regardless. */
  datatype NullString = NullString(str: string, valid: bool)

  /** A column as the database describes it.  `nullable` holds the text of the
      `Null` field of a column description ("YES" or "NO"). */
  datatype Column = Column(
    tableName: string,
    name: string,
    columnType: string,
    nullable: string,
    primaryKey: bool,
    foreignKey: bool,
    uniqueIndex: bool,
    defaultValue: NullString,
    extra: string)

  /** The referential actions a foreign key may carry. */
  const RESTRICT_OPTION: string := "RESTRICT"
  const CASCADE_OPTION: string := "CASCADE"
  const SET_NULL_OPTION: string := "SET NULL"
  const NO_ACTION_OPTION: string := "NO ACTION"
  const SET_DEFAULT_OPTION: string := "SET DEFAULT"

  /** A foreign key: `tableName.columnName` refers to
      `referencedTableName.referencedColumnName`. */
  datatype Reference = Reference(
    tableName: string,
    columnName: string,
    referencedTableName: string,
    referencedColumnName: string,
    deleteOption: string,
    updateOption: string,
    isUnique: bool)

  /** One entry of the index-name to column-names map of a table. */
  datatype UniqueIndex = UniqueIndex(name: string, columns: seq<string>)

  /** A table.  The unique-index map is kept as its list of entries, in the
      order in which one traversal of the map visits them; a Go map has
      distinct keys, which `DistinctIndexNames` states. */
  datatype Table = Table(
    name: string,
    columns: seq<Column>,
    references: seq<Reference>,
    uniqueIndexes: seq<UniqueIndex>,
    primaryCols: seq<string>)

  predicate DistinctIndexNames(t: Table) {
    forall i, j :: 0 <= i < j < |t.uniqueIndexes| ==> t.uniqueIndexes[i].name != t.uniqueIndexes[j].name
  }

  /** A `ColumnMigration`: one operation kind with the payload that kind carries. */
  datatype Migration =
    | DropForeignKey(reference: Reference)
    | DropUniqueIndex(indexName: string, columnNames: seq<string>)
    | DropColumn(column: Column)
    | RenameColumn(newColumn: Column, oldColumn: Column)
    | ModifyColumn(newColumn: Column, oldColumn: Column)
    | AddColumn(column: Column)
    | UpdateForeignKey(newReference: Reference, oldReference: Reference)
    | AddForeignKey(reference: Reference)
    | AddUniqueIndex(indexName: string, columnNames: seq<string>)

  /** The `ColumnOperation` value of a migration: its position in the
      enumeration, where a smaller value runs earlier. */
  function Priority(m: Migration): nat
  {
    match m
    case DropForeignKey(_) => 0
    case DropUniqueIndex(_, _) => 1
    case DropColumn(_) => 2
    case RenameColumn(_, _) => 3
    case ModifyColumn(_, _) => 4
    case AddColumn(_) => 5
    case UpdateForeignKey(_, _) => 6
    case AddForeignKey(_) => 7
    case AddUniqueIndex(_, _) => 8
  }

  /** The number of operation kinds. */
  const OperationCount: nat := 9

  lemma PriorityBound(m: Migration)
    ensures Priority(m) < OperationCount
  {
  }

  // ---------------------------------------------------------------------------
  // Column comparison

  /** `Column.Equals`: the receiver `c` against `col`.  Name, type, nullability
      and extra text are compared case-insensitively; the default value makes
      the columns differ only when BOTH its presence and its text differ. */
  predicate Equals(c: Column, col: Column) {
    !(ToLower(c.name) != ToLower(col.name) ||
      ToLower(c.columnType) != ToLower(col.columnType) ||
      ToLower(c.nullable) != ToLower(col.nullable) ||
      ToLower(c.extra) != ToLower(col.extra) ||
      (c.defaultValue.valid != col.defaultValue.valid && c.defaultValue.str != col.defaultValue.str))
  }

  /** `ComparePrimary`: 0 when both or neither are primary keys, 1 when only
      `col` is, -1 when only `c` is. */
  function ComparePrimary(c: Column, col: Column): (r: int)
    ensures r == 0 <==> c.primaryKey == col.primaryKey
    ensures r == 1 <==> !c.primaryKey && col.primaryKey
    ensures r == -1 <==> c.primaryKey && !col.primaryKey
  {
    if c.primaryKey == col.primaryKey then 0
    else if !c.primaryKey && col.primaryKey then 1
    else -1
  }

  // ---------------------------------------------------------------------------
  // Column lookup

  /** The value stored for `name` in the rename map, where a missing key reads
      as the empty string (the zero value of a Go map lookup). */
  function RenamedTo(renames: map<string, string>, name: string): string {
    if name in renames then renames[name] else ""
  }

  /** The match test of `HasColumn` between a column `c` of the searched table and `col`. */
  predicate Matches(c: Column, col: Column, renames: map<string, string>) {
    (c.name == col.name || RenamedTo(renames, c.name) == col.name) && c.primaryKey == col.primaryKey
  }

  /** The `(contains, index)` pair returned by `HasColumn`. */
  datatype ColumnMatch = ColumnMatch(contains: bool, index: int)

  function FindColumnFrom(cols: seq<Column>, col: Column, renames: map<string, string>, from: nat): (r: ColumnMatch)
    requires from <= |cols|
    ensures r.contains <==> exists i :: from <= i < |cols| && Matches(cols[i], col, renames)
    ensures r.contains ==> from <= r.index < |cols| && Matches(cols[r.index], col, renames)
    ensures r.contains ==> forall j :: from <= j < r.index ==> !Matches(cols[j], col, renames)
    ensures !r.contains ==> r.index == -1
    decreases |cols| - from
  {
    if from == |cols| then ColumnMatch(false, -1)
    else if Matches(cols[from], col, renames) then ColumnMatch(true, from)
    else FindColumnFrom(cols, col, renames, from + 1)
  }

  /** `HasColumn`: the first column of `t` that has `col`'s name, or that the
      rename map sends to `col`'s name, and the same primary-key flag. */
  function HasColumn(t: Table, col: Column, renames: map<string, string>): (r: ColumnMatch)
    ensures r.contains <==> exists i :: 0 <= i < |t.columns| && Matches(t.columns[i], col, renames)
    ensures r.contains ==> 0 <= r.index < |t.columns| && Matches(t.columns[r.index], col, renames)
    ensures r.contains ==> forall j :: 0 <= j < r.index ==> !Matches(t.columns[j], col, renames)
    ensures !r.contains ==> r.index == -1
  {
    FindColumnFrom(t.columns, col, renames, 0)
  }

  predicate AnyPrimaryKey(cols: seq<Column>) {
    exists i :: 0 <= i < |cols| && cols[i].primaryKey
  }

  function FirstPrimaryKeyFrom(cols: seq<Column>, from: nat): (r: Option<nat>)
    requires from <= |cols|
    ensures r.Some? <==> exists i :: from <= i < |cols| && cols[i].primaryKey
    ensures r.Some? ==> from <= r.value < |cols| && cols[r.value].primaryKey
    ensures r.Some? ==> forall j :: from <= j < r.value ==> !cols[j].primaryKey
    decreases |cols| - from
  {
    if from == |cols| then None
    else if cols[from].primaryKey then Some(from)
    else FirstPrimaryKeyFrom(cols, from + 1)
  }

  /** `GetPrimaryKeyColumn`: the first primary-key column, or none (nil). */
  function GetPrimaryKeyColumn(t: Table): (r: Option<Column>)
    ensures r.Some? <==> AnyPrimaryKey(t.columns)
    ensures r.Some? ==> r.value.primaryKey
    ensures r.Some? ==>
              exists i :: (0 <= i < |t.columns| && t.columns[i] == r.value &&
                           forall j :: 0 <= j < i ==> !t.columns[j].primaryKey)
  {
    match FirstPrimaryKeyFrom(t.columns, 0)
    case None => None
    case Some(i) => Some(t.columns[i])
  }

  // ---------------------------------------------------------------------------
  // Unique indexes

  /** The column list stored under `name`: the first entry with that name. */
  function LookupIndex(entries: seq<UniqueIndex>, name: string): (r: Option<seq<string>>)
    ensures r.None? <==> forall i :: 0 <= i < |entries| ==> entries[i].name != name
    ensures r.Some? ==>
              exists i :: (0 <= i < |entries| && entries[i] == UniqueIndex(name, r.value) &&
                           forall j :: 0 <= j < i ==> entries[j].name != name)
    decreases |entries|
  {
    if entries == [] then None
    else if entries[0].name == name then Some(entries[0].columns)
    else
      var r := LookupIndex(entries[1..], name);
      assert r.Some? ==>
               exists i :: (0 <= i < |entries| && entries[i] == UniqueIndex(name, r.value) &&
                            forall j :: 0 <= j < i ==> entries[j].name != name) by {
        if r.Some? {
          var i :| 0 <= i < |entries[1..]| && entries[1..][i] == UniqueIndex(name, r.value) &&
            forall j :: 0 <= j < i ==> entries[1..][j].name != name;
          assert entries[i + 1] == UniqueIndex(name, r.value);
          assert forall j :: 0 <= j < i + 1 ==> entries[j].name != name by {
            forall j | 0 <= j < i + 1 ensures entries[j].name != name {
              if j > 0 { assert entries[j] == entries[1..][j - 1]; }
            }
          }
        }
      }
      r
  }

  /** `CompareUniqueIndex`: 1 when `t` lacks the index or stores a different
      column list under its name (order matters), 0 when they are the same. */
  function CompareUniqueIndex(t: Table, indexName: string, colsCompare: seq<string>): (r: int)
    ensures r == 0 || r == 1
    ensures r == 0 <==> LookupIndex(t.uniqueIndexes, indexName) == Some(colsCompare)
  {
    match LookupIndex(t.uniqueIndexes, indexName)
    case None => 1
    case Some(cols) => if cols != colsCompare then 1 else 0
  }

  // ---------------------------------------------------------------------------
  // Foreign keys

  /** Two references describe the same relation: everything but the
      referential actions (and the unique flag) agrees. */
  predicate SameRelation(r1: Reference, r2: Reference) {
    r1.tableName == r2.tableName &&
    r1.columnName == r2.columnName &&
    r1.referencedTableName == r2.referencedTableName &&
    r1.referencedColumnName == r2.referencedColumnName
  }

  predicate HasRelation(refs: seq<Reference>, r: Reference) {
    exists i :: 0 <= i < |refs| && SameRelation(r, refs[i])
  }

  function FindRelationFrom(refs: seq<Reference>, r: Reference, from: nat): (k: int)
    requires from <= |refs|
    ensures k == -1 <==> forall i :: from <= i < |refs| ==> !SameRelation(r, refs[i])
    ensures k != -1 ==> from <= k < |refs| && SameRelation(r, refs[k])
    ensures k != -1 ==> forall j :: from <= j < k ==> !SameRelation(r, refs[j])
    decreases |refs| - from
  {
    if from == |refs| then -1
    else if SameRelation(r, refs[from]) then from
    else FindRelationFrom(refs, r, from + 1)
  }

  /** `slices.IndexFunc` with the same-relation test: the first index, or -1. */
  function FindRelation(refs: seq<Reference>, r: Reference): (k: int)
    ensures k == -1 <==> !HasRelation(refs, r)
    ensures k != -1 ==> 0 <= k < |refs| && SameRelation(r, refs[k])
    ensures k != -1 ==> forall j :: 0 <= j < k ==> !SameRelation(r, refs[j])
  {
    FindRelationFrom(refs, r, 0)
  }

  // ---------------------------------------------------------------------------
  // The comparator, phase by phase, as functions of the prefix already visited

  /** What the dropped-column pass has produced after visiting some columns:
      the migrations so far and the old-to-new names of renamed primary keys. */
  datatype DropState = DropState(migrations: seq<Migration>, renames: map<string, string>)

  /** `CompareWith` needs the target's primary key only when the source has one. */
  predicate Comparable(t: Table, dst: Table) {
    AnyPrimaryKey(dst.columns) || !AnyPrimaryKey(t.columns)
  }

  /** The first loop of `CompareWith` over the source columns `cols`: a column
      with no match in `dst` is dropped, or when it is a primary key renamed to
      `dst`'s primary key (the rename recorded for the later lookups). */
  function DroppedColumns(cols: seq<Column>, dst: Table): (s: DropState)
    requires AnyPrimaryKey(dst.columns) || !AnyPrimaryKey(cols)
    decreases |cols|
  {
    if cols == [] then DropState([], map[])
    else
      var n := |cols| - 1;
      assert !AnyPrimaryKey(cols[..n]) || AnyPrimaryKey(cols) by {
        if AnyPrimaryKey(cols[..n]) {
          var i :| 0 <= i < n && cols[..n][i].primaryKey;
          assert cols[i].primaryKey;
        }
      }
      var prev := DroppedColumns(cols[..n], dst);
      var col := cols[n];
      if HasColumn(dst, col, prev.renames).contains then prev
      else if col.primaryKey then
        var pk := GetPrimaryKeyColumn(dst).value;
        DropState(prev.migrations + [RenameColumn(pk, col)], prev.renames[col.name := pk.name])
      else
        DropState(prev.migrations + [DropColumn(col)], prev.renames)
  }

  /** The second loop over the target columns `cols`: a column without a match
      in `src` is added unless it is a primary key; a matched pair that is not
      `Equals` is modified. */
  function AddedOrModified(cols: seq<Column>, src: Table, renames: map<string, string>): seq<Migration>
    decreases |cols|
  {
    if cols == [] then []
    else
      var n := |cols| - 1;
      var prev := AddedOrModified(cols[..n], src, renames);
      var col := cols[n];
      var m := HasColumn(src, col, renames);
      if !m.contains then
        if !col.primaryKey then prev + [AddColumn(col)] else prev
      else if !Equals(col, src.columns[m.index]) then prev + [ModifyColumn(col, src.columns[m.index])]
      else prev
  }

  /** What an index pass has produced: the migrations and the names already emitted. */
  datatype IndexState = IndexState(migrations: seq<Migration>, emitted: seq<string>)

  /** The index loops over the entries of one table, compared with `other`:
      an entry that `other` lacks (or stores with other columns) is added when
      `dropping` is false and dropped when it is true, each name at most once. */
  function IndexChanges(entries: seq<UniqueIndex>, other: Table, dropping: bool): IndexState
    decreases |entries|
  {
    if entries == [] then IndexState([], [])
    else
      var n := |entries| - 1;
      var prev := IndexChanges(entries[..n], other, dropping);
      var e := entries[n];
      if e.name in prev.emitted then prev
      else if CompareUniqueIndex(other, e.name, e.columns) == 1 then
        var m := if dropping then DropUniqueIndex(e.name, e.columns) else AddUniqueIndex(e.name, e.columns);
        IndexState(prev.migrations + [m], prev.emitted + [e.name])
      else prev
  }

  /** The loop over the source references: those with no same relation in `dst` are dropped. */
  function DroppedReferences(refs: seq<Reference>, dst: Table): seq<Migration>
    decreases |refs|
  {
    if refs == [] then []
    else
      var n := |refs| - 1;
      var prev := DroppedReferences(refs[..n], dst);
      if !HasRelation(dst.references, refs[n]) then prev + [DropForeignKey(refs[n])] else prev
  }

  /** The loop over the target references: those with no same relation in
      `src` are added; those whose first same relation in `src` has other
      referential actions are updated. */
  function AddedReferences(refs: seq<Reference>, src: Table): seq<Migration>
    decreases |refs|
  {
    if refs == [] then []
    else
      var n := |refs| - 1;
      var prev := AddedReferences(refs[..n], src);
      var r1 := refs[n];
      var k := FindRelation(src.references, r1);
      if k == -1 then prev + [AddForeignKey(r1)]
      else if src.references[k].updateOption != r1.updateOption || src.references[k].deleteOption != r1.deleteOption then
        prev + [UpdateForeignKey(r1, src.references[k])]
      else prev
  }

  /** The migrations that turn table `t` into table `dst`, in the order `CompareWith` finds them. */
  function Diff(t: Table, dst: Table): seq<Migration>
    requires Comparable(t, dst)
  {
    var drop := DroppedColumns(t.columns, dst);
    drop.migrations
    + AddedOrModified(dst.columns, t, drop.renames)
    + IndexChanges(dst.uniqueIndexes, t, false).migrations
    + IndexChanges(t.uniqueIndexes, dst, true).migrations
    + DroppedReferences(t.references, dst)
    + AddedReferences(dst.references, t)
  }

  /** The dropped-column loop of `CompareWith`, with its rename map. */
  method DropPass(t: Table, dst: Table) returns (migrations: seq<Migration>, renamedColumns: map<string, string>)
    requires Comparable(t, dst)
    ensures DropState(migrations, renamedColumns) == DroppedColumns(t.columns, dst)
  {
    migrations := [];
    renamedColumns := map[];
    var i := 0;
    while i < |t.columns|
      invariant 0 <= i <= |t.columns|
      invariant DropState(migrations, renamedColumns) == DroppedColumns(t.columns[..i], dst)
    {
      var col := t.columns[i];
      assert t.columns[..i + 1][..i] == t.columns[..i];
      var found := HasColumn(dst, col, renamedColumns);
      if !found.contains {
        if col.primaryKey {
          assert AnyPrimaryKey(t.columns);
          var pk := GetPrimaryKeyColumn(dst).value;
          migrations := migrations + [RenameColumn(pk, col)];
          renamedColumns := renamedColumns[col.name := pk.name];
        } else {
          migrations := migrations + [DropColumn(col)];
        }
      }
      i := i + 1;
    }
    assert t.columns[..|t.columns|] == t.columns;
  }

  /** The new-column loop of `CompareWith`. */
  method AddPass(t: Table, dst: Table, renamedColumns: map<string, string>) returns (migrations: seq<Migration>)
    ensures migrations == AddedOrModified(dst.columns, t, renamedColumns)
  {
    migrations := [];
    var i := 0;
    while i < |dst.columns|
      invariant 0 <= i <= |dst.columns|
      invariant migrations == AddedOrModified(dst.columns[..i], t, renamedColumns)
    {
      var col := dst.columns[i];
      assert dst.columns[..i + 1][..i] == dst.columns[..i];
      var found := HasColumn(t, col, renamedColumns);
      if !found.contains {
        if !col.primaryKey {
          migrations := migrations + [AddColumn(col)];
        }
      } else if !Equals(col, t.columns[found.index]) {
        migrations := migrations + [ModifyColumn(col, t.columns[found.index])];
      }
      i := i + 1;
    }
    assert dst.columns[..|dst.columns|] == dst.columns;
  }

  /** One of the two unique-index loops of `CompareWith`: over the entries of
      one table, against `other`, adding when `dropping` is false. */
  method IndexPass(entries: seq<UniqueIndex>, other: Table, dropping: bool) returns (migrations: seq<Migration>)
    ensures migrations == IndexChanges(entries, other, dropping).migrations
  {
    migrations := [];
    var handled: seq<string> := [];
    var i := 0;
    while i < |entries|
      invariant 0 <= i <= |entries|
      invariant IndexState(migrations, handled) == IndexChanges(entries[..i], other, dropping)
    {
      var e := entries[i];
      assert entries[..i + 1][..i] == entries[..i];
      if e.name !in handled && CompareUniqueIndex(other, e.name, e.columns) == 1 {
        if dropping {
          migrations := migrations + [DropUniqueIndex(e.name, e.columns)];
        } else {
          migrations := migrations + [AddUniqueIndex(e.name, e.columns)];
        }
        handled := handled + [e.name];
      }
      i := i + 1;
    }
    assert entries[..|entries|] == entries;
  }

  /** The dropped-foreign-key loop of `CompareWith`. */
  method DropReferencePass(t: Table, dst: Table) returns (migrations: seq<Migration>)
    ensures migrations == DroppedReferences(t.references, dst)
  {
    migrations := [];
    var i := 0;
    while i < |t.references|
      invariant 0 <= i <= |t.references|
      invariant migrations == DroppedReferences(t.references[..i], dst)
    {
      var r1 := t.references[i];
      assert t.references[..i + 1][..i] == t.references[..i];
      if !HasRelation(dst.references, r1) {
        migrations := migrations + [DropForeignKey(r1)];
      }
      i := i + 1;
    }
    assert t.references[..|t.references|] == t.references;
  }

  /** The new-foreign-key loop of `CompareWith`. */
  method AddReferencePass(t: Table, dst: Table) returns (migrations: seq<Migration>)
    ensures migrations == AddedReferences(dst.references, t)
  {
    migrations := [];
    var i := 0;
    while i < |dst.references|
      invariant 0 <= i <= |dst.references|
      invariant migrations == AddedReferences(dst.references[..i], t)
    {
      var r1 := dst.references[i];
      assert dst.references[..i + 1][..i] == dst.references[..i];
      var k := FindRelation(t.references, r1);
      if k == -1 {
        migrations := migrations + [AddForeignKey(r1)];
      } else if t.references[k].updateOption != r1.updateOption || t.references[k].deleteOption != r1.deleteOption {
        migrations := migrations + [UpdateForeignKey(r1, t.references[k])];
      }
      i := i + 1;
    }
    assert dst.references[..|dst.references|] == dst.references;
  }

  /** `Table.CompareWith`: the migrations that change `t` into `dst`, found
      pass after pass; the rename map is fresh for every call. */
  method CompareWith(t: Table, dst: Table) returns (migrations: seq<Migration>)
    requires Comparable(t, dst)
    ensures migrations == Diff(t, dst)
  {
    var dropped, renamedColumns := DropPass(t, dst);
    var added := AddPass(t, dst, renamedColumns);
    var createdIndexes := IndexPass(dst.uniqueIndexes, t, false);
    var droppedIndexes := IndexPass(t.uniqueIndexes, dst, true);
    var droppedReferences := DropReferencePass(t, dst);
    var addedReferences := AddReferencePass(t, dst);
    migrations := dropped + added + createdIndexes + droppedIndexes + droppedReferences + addedReferences;
  }
}
