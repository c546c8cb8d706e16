/**
  The comparator on the tables of the package's own examples: each lemma
  states the complete list of migrations for one pair of tables.
 */
module SchemaExamples {
  import opened Schema
  import opened SchemaFacts

  /** A column with Go's zero value in every field but these. */
  function PlainColumn(name: string, columnType: string, nullable: string, extra: string, pk: bool): Column {
    Column("", name, columnType, nullable, pk, false, false, NullString("", false), extra)
  }

  /** `HasColumn` finds the first column that matches. */
  lemma FirstMatch(t: Table, c: Column, i: nat)
    requires i < |t.columns| && Matches(t.columns[i], c, map[])
    requires forall j :: 0 <= j < i ==> !Matches(t.columns[j], c, map[])
    ensures HasColumn(t, c, map[]) == ColumnMatch(true, i)
  {
  }

  /** Without indexes and references, only the two column passes contribute. */
  lemma ColumnsOnly(t: Table, dst: Table)
    requires Comparable(t, dst)
    requires t.uniqueIndexes == [] && dst.uniqueIndexes == [] && t.references == [] && dst.references == []
    ensures Diff(t, dst) == DroppedColumns(t.columns, dst).migrations +
                            AddedOrModified(dst.columns, t, DroppedColumns(t.columns, dst).renames)
  {
  }

  /** Without index changes and column changes, only the two reference passes contribute. */
  lemma ReferencesOnly(t: Table, dst: Table)
    requires Comparable(t, dst)
    requires t.uniqueIndexes == [] && dst.uniqueIndexes == []
    requires DroppedColumns(t.columns, dst) == DropState([], map[])
    requires AddedOrModified(dst.columns, t, map[]) == []
    ensures Diff(t, dst) == DroppedReferences(t.references, dst) + AddedReferences(dst.references, t)
  {
  }

  /** The key of a two-column table is its first column. */
  lemma ExamplePrimaryKey(id: Column, name: Column)
    requires id == PlainColumn("id", "int", "", "", true)
    requires name == PlainColumn("name", "varchar(255)", "", "", false)
    ensures GetPrimaryKeyColumn(Table("users", [id, name], [], [], [])) == Some(id)
  {
    assert Table("users", [id, name], [], [], []).columns[0] == id;
  }

  /** A new non-key column is the only migration. */
  lemma ExampleAddColumn(id: Column, name: Column)
    requires id == PlainColumn("id", "int", "", "", true)
    requires name == PlainColumn("name", "varchar(255)", "", "", false)
    ensures Comparable(Table("users", [id], [], [], []), Table("users", [id, name], [], [], []))
    ensures Diff(Table("users", [id], [], [], []), Table("users", [id, name], [], [], [])) == [AddColumn(name)]
  {
    var t, dst := Table("users", [id], [], [], []), Table("users", [id, name], [], [], []);
    assert dst.columns[0].primaryKey;
    assert Matches(dst.columns[0], id, map[]);
    assert [id][..0] == [];
    assert DroppedColumns(t.columns, dst) == DropState([], map[]);
    assert Matches(id, id, map[]);
    assert dst.columns[..1] == [id];
    assert AddedOrModified(dst.columns[..1], t, map[]) == [];
    assert !Matches(id, name, map[]);
    assert !HasColumn(t, name, map[]).contains;
  }

  /** A removed non-key column is the only migration. */
  lemma ExampleDropColumn(id: Column, name: Column)
    requires id == PlainColumn("id", "int", "", "", true)
    requires name == PlainColumn("name", "varchar(255)", "", "", false)
    ensures Comparable(Table("users", [id, name], [], [], []), Table("users", [id], [], [], []))
    ensures Diff(Table("users", [id, name], [], [], []), Table("users", [id], [], [], [])) == [DropColumn(name)]
  {
    var t, dst := Table("users", [id, name], [], [], []), Table("users", [id], [], [], []);
    assert dst.columns[0].primaryKey;
    assert Matches(id, id, map[]);
    assert [id][..0] == [];
    assert t.columns[..1] == [id];
    assert DroppedColumns(t.columns[..1], dst) == DropState([], map[]);
    assert !Matches(id, name, map[]);
    assert DroppedColumns(t.columns, dst) == DropState([DropColumn(name)], map[]);
    assert AddedOrModified(dst.columns, t, map[]) == [];
  }

  /** The columns of the modification example, before and after. */
  predicate ModifyExample(t: Table, dst: Table) {
    t == Table("users", [PlainColumn("id", "int", "", "", true),
                         PlainColumn("age", "varchar(255)", "", "", false),
                         PlainColumn("name", "varchar(255)", "YES", "", false),
                         PlainColumn("weight", "int", "", "", false)], [], [], []) &&
    dst == Table("users", [PlainColumn("id", "int", "", "", true),
                           PlainColumn("age", "int", "", "", false),
                           PlainColumn("name", "varchar(255)", "NO", "", false),
                           PlainColumn("weight", "int", "", "autoIncrement", false)], [], [], [])
  }

  lemma ModifyExampleLookups(t: Table, dst: Table)
    requires ModifyExample(t, dst)
    ensures Comparable(t, dst)
    ensures DroppedColumns(t.columns, dst) == DropState([], map[])
    ensures forall i :: 0 <= i < 4 ==> HasColumn(t, dst.columns[i], map[]) == ColumnMatch(true, i)
  {
    assert dst.columns[0].primaryKey;
    forall i | 0 <= i < 4
      ensures Matches(t.columns[i], dst.columns[i], map[]) && Matches(dst.columns[i], t.columns[i], map[])
      ensures forall j :: 0 <= j < i ==> !Matches(t.columns[j], dst.columns[i], map[])
    {
    }
    forall c | c in t.columns
      ensures exists d :: d in dst.columns && Matches(d, c, map[])
    {
      var i :| 0 <= i < 4 && t.columns[i] == c;
      assert Matches(dst.columns[i], c, map[]);
    }
    NothingDropped(t.columns, dst);
    forall i | 0 <= i < 4
      ensures HasColumn(t, dst.columns[i], map[]) == ColumnMatch(true, i)
    {
      FirstMatch(t, dst.columns[i], i);
    }
  }

  lemma FourParts(ds: seq<Column>)
    requires |ds| == 4
    ensures ds == [ds[0]] + [ds[1]] + [ds[2]] + [ds[3]]
  {
  }

  /** The new-column pass on one target column found at position `i` of the source. */
  lemma MatchedStep(c: Column, t: Table, i: nat)
    requires HasColumn(t, c, map[]) == ColumnMatch(true, i)
    ensures AddedOrModified([c], t, map[]) == if Equals(c, t.columns[i]) then [] else [ModifyColumn(c, t.columns[i])]
  {
    assert [c][..0] == [];
  }

  lemma SameColumn(c: Column, col: Column)
    requires c == col
    ensures Equals(c, col)
  {
    EqualsReflexive(c);
  }

  /** Columns whose type, nullability or extra text differ in length are not equal. */
  lemma LengthsDiffer(c: Column, col: Column)
    requires |c.columnType| != |col.columnType| || |c.nullable| != |col.nullable| || |c.extra| != |col.extra|
    ensures !Equals(c, col)
  {
  }

  lemma ThreeSingles(x: Migration, y: Migration, z: Migration)
    ensures [] + [x] + [y] + [z] == [x, y, z]
  {
  }

  /** The new-column pass over four columns is the pass over each in turn. */
  lemma FourSingles(ds: seq<Column>, t: Table)
    requires |ds| == 4
    ensures AddedOrModified(ds, t, map[]) ==
            AddedOrModified([ds[0]], t, map[]) + AddedOrModified([ds[1]], t, map[]) +
            AddedOrModified([ds[2]], t, map[]) + AddedOrModified([ds[3]], t, map[])
  {
    var a, b, c, d := [ds[0]], [ds[1]], [ds[2]], [ds[3]];
    FourParts(ds);
    AddedOrModifiedAppend(a, b, t, map[]);
    AddedOrModifiedAppend(a + b, c, t, map[]);
    AddedOrModifiedAppend(a + b + c, d, t, map[]);
  }

  /** The new-column pass over four target columns, each found at its own
      position in the source, the first unchanged. */
  lemma FourMatched(t: Table, dst: Table)
    requires |dst.columns| == 4 && |t.columns| == 4
    requires forall i :: 0 <= i < 4 ==> HasColumn(t, dst.columns[i], map[]) == ColumnMatch(true, i)
    requires Equals(dst.columns[0], t.columns[0])
    requires !Equals(dst.columns[1], t.columns[1]) && !Equals(dst.columns[2], t.columns[2])
    requires !Equals(dst.columns[3], t.columns[3])
    ensures AddedOrModified(dst.columns, t, map[]) ==
            [ModifyColumn(dst.columns[1], t.columns[1]),
             ModifyColumn(dst.columns[2], t.columns[2]),
             ModifyColumn(dst.columns[3], t.columns[3])]
  {
    var ds := dst.columns;
    FourSingles(ds, t);
    MatchedStep(ds[0], t, 0);
    MatchedStep(ds[1], t, 1);
    MatchedStep(ds[2], t, 2);
    MatchedStep(ds[3], t, 3);
    assert AddedOrModified([ds[0]], t, map[]) == [];
    assert AddedOrModified([ds[1]], t, map[]) == [ModifyColumn(ds[1], t.columns[1])];
    assert AddedOrModified([ds[2]], t, map[]) == [ModifyColumn(ds[2], t.columns[2])];
    assert AddedOrModified([ds[3]], t, map[]) == [ModifyColumn(ds[3], t.columns[3])];
    var m1, m2, m3 := ModifyColumn(ds[1], t.columns[1]), ModifyColumn(ds[2], t.columns[2]), ModifyColumn(ds[3], t.columns[3]);
    calc {
      AddedOrModified(ds, t, map[]);
      AddedOrModified([ds[0]], t, map[]) + AddedOrModified([ds[1]], t, map[]) +
      AddedOrModified([ds[2]], t, map[]) + AddedOrModified([ds[3]], t, map[]);
      [] + [m1] + [m2] + [m3];
      { ThreeSingles(m1, m2, m3); }
      [m1, m2, m3];
    }
  }

  /** A changed type, a changed nullability and a changed extra text each
      give one modification, in the order of the target's columns. */
  lemma ExampleModifyColumns(t: Table, dst: Table)
    requires ModifyExample(t, dst)
    ensures Comparable(t, dst)
    ensures Diff(t, dst) == [ModifyColumn(dst.columns[1], t.columns[1]),
                             ModifyColumn(dst.columns[2], t.columns[2]),
                             ModifyColumn(dst.columns[3], t.columns[3])]
  {
    ModifyExampleLookups(t, dst);
    var ds := dst.columns;
    SameColumn(ds[0], t.columns[0]);
    LengthsDiffer(ds[1], t.columns[1]);
    LengthsDiffer(ds[2], t.columns[2]);
    LengthsDiffer(ds[3], t.columns[3]);
    assert t.uniqueIndexes == [] && dst.uniqueIndexes == [] && t.references == [] && dst.references == [];
    assert |dst.columns| == 4 && |t.columns| == 4;
    LastThreeModified(t, dst);
  }

  /** Four columns found in place, the last three changed and nothing else
      to compare: exactly three modifications, in column order. */
  lemma LastThreeModified(t: Table, dst: Table)
    requires Comparable(t, dst)
    requires t.uniqueIndexes == [] && dst.uniqueIndexes == [] && t.references == [] && dst.references == []
    requires |dst.columns| == 4 && |t.columns| == 4
    requires DroppedColumns(t.columns, dst) == DropState([], map[])
    requires forall i :: 0 <= i < 4 ==> HasColumn(t, dst.columns[i], map[]) == ColumnMatch(true, i)
    requires Equals(dst.columns[0], t.columns[0])
    requires !Equals(dst.columns[1], t.columns[1]) && !Equals(dst.columns[2], t.columns[2])
    requires !Equals(dst.columns[3], t.columns[3])
    ensures Diff(t, dst) == [ModifyColumn(dst.columns[1], t.columns[1]),
                             ModifyColumn(dst.columns[2], t.columns[2]),
                             ModifyColumn(dst.columns[3], t.columns[3])]
  {
    var drop := DroppedColumns(t.columns, dst);
    assert drop.migrations == [] && drop.renames == map[];
    FourMatched(t, dst);
    ColumnsOnly(t, dst);
  }

  /** A new relation is the only migration. */
  lemma ExampleAddForeignKey(id: Column, userId: Column, r: Reference)
    requires id == PlainColumn("id", "int", "", "", true)
    requires userId == PlainColumn("user_id", "int", "", "", false)
    requires r == Reference("orders", "user_id", "users", "id", CASCADE_OPTION, "", false)
    ensures Comparable(Table("orders", [id, userId], [], [], []), Table("orders", [id, userId], [r], [], []))
    ensures Diff(Table("orders", [id, userId], [], [], []), Table("orders", [id, userId], [r], [], []))
            == [AddForeignKey(r)]
  {
    var t, dst := Table("orders", [id, userId], [], [], []), Table("orders", [id, userId], [r], [], []);
    assert dst.columns[0].primaryKey;
    var cs := t.columns;
    assert Matches(id, id, map[]) && Matches(userId, userId, map[]);
    NothingDropped(cs, dst);
    FirstMatch(t, id, 0);
    FirstMatch(t, userId, 1);
    MatchedStep(id, t, 0);
    MatchedStep(userId, t, 1);
    assert cs == [id] + [userId];
    AddedOrModifiedAppend([id], [userId], t, map[]);
    ReferencesOnly(t, dst);
    assert [r][..0] == [];
  }
}
