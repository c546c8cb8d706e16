/**
  Properties of the comparator: what `Equals` looks at, which migrations each
  pass of `CompareWith` emits and exactly when, the primary-key rename, the
  symmetry between the two directions of a comparison, and that a table
  compared with itself needs no migration.
 */
module SchemaFacts {
  import opened Strings
  import opened Schema

  // ---------------------------------------------------------------------------
  // Column equality

  /** `Equals` never looks at the table name or at the key and index flags. */
  lemma EqualsIgnoresFlags(c: Column, col: Column, tableName: string, pk: bool, fk: bool, unique: bool)
    ensures Equals(c.(tableName := tableName, primaryKey := pk, foreignKey := fk, uniqueIndex := unique), col)
            == Equals(c, col)
    ensures Equals(col, c.(tableName := tableName, primaryKey := pk, foreignKey := fk, uniqueIndex := unique))
            == Equals(col, c)
  {
  }

  /** Text compared by `Equals` is compared without regard to letter case. */
  lemma EqualsUpperCase(c: Column, col: Column)
    ensures Equals(c.(name := ToUpper(c.name), columnType := ToUpper(c.columnType),
                      nullable := ToUpper(c.nullable), extra := ToUpper(c.extra)), col)
            == Equals(c, col)
  {
    LowerOfUpper(c.name);
    LowerOfUpper(c.columnType);
    LowerOfUpper(c.nullable);
    LowerOfUpper(c.extra);
  }

  lemma LowerOfUpper(s: string)
    ensures ToLower(ToUpper(s)) == ToLower(s)
  {
    assert forall i :: 0 <= i < |s| ==> LowerChar(UpperChar(s[i])) == LowerChar(s[i]);
  }

  lemma EqualsReflexive(c: Column)
    ensures Equals(c, c)
  {
  }

  lemma EqualsSymmetric(c: Column, col: Column)
    ensures Equals(c, col) == Equals(col, c)
  {
  }

  /** Names that differ once lower-cased always make two columns differ. */
  lemma EqualsNeedsName(c: Column, col: Column)
    requires ToLower(c.name) != ToLower(col.name)
    ensures !Equals(c, col)
  {
  }

  /** The default value makes two columns differ only when BOTH its presence
      and its text differ: a default that appears or disappears while its text
      stays the same, and a present default whose text changes, both go
      unnoticed. */
  lemma EqualsDefaultValue(c: Column, col: Column)
    requires ToLower(c.name) == ToLower(col.name) && ToLower(c.columnType) == ToLower(col.columnType)
    requires ToLower(c.nullable) == ToLower(col.nullable) && ToLower(c.extra) == ToLower(col.extra)
    ensures !Equals(c, col) <==>
            c.defaultValue.valid != col.defaultValue.valid && c.defaultValue.str != col.defaultValue.str
  {
  }

  /** `DEFAULT 'a'` against `DEFAULT 'b'` compares as equal. */
  lemma EqualsIgnoresChangedDefault(c: Column)
    ensures Equals(c.(defaultValue := NullString("a", true)), c.(defaultValue := NullString("b", true)))
  {
  }

  // ---------------------------------------------------------------------------
  // The kinds each pass emits

  /** What the dropped-column pass may emit for source columns `cols`. */
  predicate DropShape(m: Migration, cols: seq<Column>, dst: Table) {
    match m
    case DropColumn(c) => c in cols && !c.primaryKey
    case RenameColumn(n, o) => o in cols && o.primaryKey && GetPrimaryKeyColumn(dst) == Some(n)
    case _ => false
  }

  /** Every value of the rename map is the name of the target's primary key. */
  predicate RenamesToPrimaryKey(renames: map<string, string>, dst: Table) {
    forall k :: k in renames ==> GetPrimaryKeyColumn(dst).Some? && renames[k] == GetPrimaryKeyColumn(dst).value.name
  }

  lemma {:induction false} DroppedColumnsShape(cols: seq<Column>, dst: Table)
    requires AnyPrimaryKey(dst.columns) || !AnyPrimaryKey(cols)
    ensures forall m :: m in DroppedColumns(cols, dst).migrations ==> DropShape(m, cols, dst)
    ensures RenamesToPrimaryKey(DroppedColumns(cols, dst).renames, dst)
    decreases |cols|
  {
    if cols != [] {
      var n := |cols| - 1;
      assert cols == cols[..n] + [cols[n]];
      PrefixComparable(cols, dst);
      DroppedColumnsShape(cols[..n], dst);
    }
  }

  lemma PrefixComparable(cols: seq<Column>, dst: Table)
    requires cols != []
    requires AnyPrimaryKey(dst.columns) || !AnyPrimaryKey(cols)
    ensures AnyPrimaryKey(dst.columns) || !AnyPrimaryKey(cols[..|cols| - 1])
  {
    if AnyPrimaryKey(cols[..|cols| - 1]) {
      var i :| 0 <= i < |cols| - 1 && cols[..|cols| - 1][i].primaryKey;
      assert cols[i].primaryKey;
    }
  }

  /** What the new-column pass may emit for target columns `cols`. */
  predicate AddShape(m: Migration, cols: seq<Column>, src: Table) {
    match m
    case AddColumn(c) => c in cols && !c.primaryKey
    case ModifyColumn(n, o) => n in cols && o in src.columns && !Equals(n, o)
    case _ => false
  }

  lemma {:induction false} AddedOrModifiedShape(cols: seq<Column>, src: Table, renames: map<string, string>)
    ensures forall m :: m in AddedOrModified(cols, src, renames) ==> AddShape(m, cols, src)
    decreases |cols|
  {
    if cols != [] {
      var n := |cols| - 1;
      assert cols == cols[..n] + [cols[n]];
      AddedOrModifiedShape(cols[..n], src, renames);
    }
  }

  /** The migration an index pass emits for an entry. */
  function IndexMigration(name: string, columns: seq<string>, dropping: bool): Migration {
    if dropping then DropUniqueIndex(name, columns) else AddUniqueIndex(name, columns)
  }

  /** The names of the migrations emitted by an index pass are the names it
      has recorded; every migration is the one for an entry of `entries`. */
  lemma {:induction false} IndexChangesShape(entries: seq<UniqueIndex>, other: Table, dropping: bool)
    ensures |IndexChanges(entries, other, dropping).migrations| == |IndexChanges(entries, other, dropping).emitted|
    ensures forall k :: 0 <= k < |IndexChanges(entries, other, dropping).migrations| ==>
              var m := IndexChanges(entries, other, dropping).migrations[k];
              (m.DropUniqueIndex? || m.AddUniqueIndex?) &&
              m == IndexMigration(m.indexName, m.columnNames, dropping) &&
              m.indexName == IndexChanges(entries, other, dropping).emitted[k] &&
              UniqueIndex(m.indexName, m.columnNames) in entries
    decreases |entries|
  {
    if entries != [] {
      var n := |entries| - 1;
      assert entries == entries[..n] + [entries[n]];
      IndexChangesShape(entries[..n], other, dropping);
    }
  }

  /** Each index name is emitted at most once by a pass. */
  lemma {:induction false} IndexChangesOnce(entries: seq<UniqueIndex>, other: Table, dropping: bool)
    ensures forall i, j :: 0 <= i < j < |IndexChanges(entries, other, dropping).emitted| ==>
              IndexChanges(entries, other, dropping).emitted[i] != IndexChanges(entries, other, dropping).emitted[j]
    decreases |entries|
  {
    if entries != [] {
      IndexChangesOnce(entries[..|entries| - 1], other, dropping);
    }
  }

  /** The index name an index migration carries. */
  function IndexNameOf(m: Migration): string {
    if m.DropUniqueIndex? || m.AddUniqueIndex? then m.indexName else ""
  }

  /** No two migrations of one index pass carry the same index name. */
  lemma IndexNamesOnce(entries: seq<UniqueIndex>, other: Table, dropping: bool)
    ensures forall i, j :: 0 <= i < j < |IndexChanges(entries, other, dropping).migrations| ==>
              IndexNameOf(IndexChanges(entries, other, dropping).migrations[i])
              != IndexNameOf(IndexChanges(entries, other, dropping).migrations[j])
  {
    IndexChangesShape(entries, other, dropping);
    IndexChangesOnce(entries, other, dropping);
  }

  /** The adding and the dropping pass over the same entries against the same
      table differ only in the kind of the migrations. */
  lemma {:induction false} IndexChangesDual(entries: seq<UniqueIndex>, other: Table)
    ensures IndexChanges(entries, other, false).emitted == IndexChanges(entries, other, true).emitted
    ensures |IndexChanges(entries, other, false).migrations| == |IndexChanges(entries, other, true).migrations|
    ensures forall k :: 0 <= k < |IndexChanges(entries, other, false).migrations| ==>
              var a := IndexChanges(entries, other, false).migrations[k];
              a.AddUniqueIndex? &&
              IndexChanges(entries, other, true).migrations[k] == DropUniqueIndex(a.indexName, a.columnNames)
    decreases |entries|
  {
    if entries != [] {
      var n := |entries| - 1;
      IndexChangesDual(entries[..n], other);
    }
  }

  /** With distinct index names, an entry's migration is emitted exactly when
      `other` lacks the index or stores other columns under its name. */
  lemma {:induction false} IndexChangesMember(entries: seq<UniqueIndex>, other: Table, dropping: bool, e: UniqueIndex)
    requires forall i, j :: 0 <= i < j < |entries| ==> entries[i].name != entries[j].name
    ensures IndexMigration(e.name, e.columns, dropping) in IndexChanges(entries, other, dropping).migrations
            <==> e in entries && CompareUniqueIndex(other, e.name, e.columns) == 1
    ensures e.name in IndexChanges(entries, other, dropping).emitted ==> exists i :: 0 <= i < |entries| && entries[i].name == e.name
    decreases |entries|
  {
    if entries != [] {
      var n := |entries| - 1;
      assert entries == entries[..n] + [entries[n]];
      IndexChangesMember(entries[..n], other, dropping, e);
      IndexChangesShape(entries[..n], other, dropping);
      if e.name in IndexChanges(entries[..n], other, dropping).emitted {
        var i :| 0 <= i < n && entries[i].name == e.name;
        assert e != entries[n];
      }
    }
  }

  lemma {:induction false} DroppedReferencesMember(refs: seq<Reference>, dst: Table, r: Reference)
    ensures DropForeignKey(r) in DroppedReferences(refs, dst) <==> r in refs && !HasRelation(dst.references, r)
    decreases |refs|
  {
    if refs != [] {
      var n := |refs| - 1;
      assert refs == refs[..n] + [refs[n]];
      DroppedReferencesMember(refs[..n], dst, r);
    }
  }

  lemma {:induction false} DroppedReferencesShape(refs: seq<Reference>, dst: Table)
    ensures forall m :: m in DroppedReferences(refs, dst) ==> m.DropForeignKey? && m.reference in refs
    decreases |refs|
  {
    if refs != [] {
      var n := |refs| - 1;
      assert refs == refs[..n] + [refs[n]];
      DroppedReferencesShape(refs[..n], dst);
    }
  }

  lemma {:induction false} AddedReferencesShape(refs: seq<Reference>, src: Table)
    ensures forall m :: m in AddedReferences(refs, src) ==>
              (m.AddForeignKey? && m.reference in refs) || (m.UpdateForeignKey? && m.newReference in refs)
    decreases |refs|
  {
    if refs != [] {
      var n := |refs| - 1;
      assert refs == refs[..n] + [refs[n]];
      AddedReferencesShape(refs[..n], src);
    }
  }

  lemma {:induction false} AddedReferencesMember(refs: seq<Reference>, src: Table, r: Reference, previous: Reference)
    ensures AddForeignKey(r) in AddedReferences(refs, src) <==> r in refs && !HasRelation(src.references, r)
    ensures UpdateForeignKey(r, previous) in AddedReferences(refs, src) <==>
            r in refs && FindRelation(src.references, r) != -1 &&
            previous == src.references[FindRelation(src.references, r)] &&
            (previous.updateOption != r.updateOption || previous.deleteOption != r.deleteOption)
    decreases |refs|
  {
    if refs != [] {
      var n := |refs| - 1;
      assert refs == refs[..n] + [refs[n]];
      AddedReferencesMember(refs[..n], src, r, previous);
    }
  }

  // ---------------------------------------------------------------------------
  // Where each kind comes from

  /** Each kind of migration is emitted by one pass only. */
  lemma DiffPhase(t: Table, dst: Table, m: Migration)
    requires Comparable(t, dst)
    requires m in Diff(t, dst)
    ensures (m.DropColumn? || m.RenameColumn?) ==> m in DroppedColumns(t.columns, dst).migrations
    ensures (m.AddColumn? || m.ModifyColumn?) ==>
              m in AddedOrModified(dst.columns, t, DroppedColumns(t.columns, dst).renames)
    ensures m.AddUniqueIndex? ==> m in IndexChanges(dst.uniqueIndexes, t, false).migrations
    ensures m.DropUniqueIndex? ==> m in IndexChanges(t.uniqueIndexes, dst, true).migrations
    ensures m.DropForeignKey? ==> m in DroppedReferences(t.references, dst)
    ensures (m.AddForeignKey? || m.UpdateForeignKey?) ==> m in AddedReferences(dst.references, t)
  {
    var drop := DroppedColumns(t.columns, dst);
    DroppedColumnsShape(t.columns, dst);
    AddedOrModifiedShape(dst.columns, t, drop.renames);
    IndexChangesShape(dst.uniqueIndexes, t, false);
    IndexChangesShape(t.uniqueIndexes, dst, true);
    DroppedReferencesShape(t.references, dst);
    AddedReferencesShape(dst.references, t);
  }

  // ---------------------------------------------------------------------------
  // Foreign keys and unique indexes in a whole comparison

  /** A source relation is dropped exactly when the target lacks it, a target
      relation is added exactly when the source lacks it, and a shared relation
      is updated (against its first same relation in the source) exactly when
      a referential action differs. */
  lemma DiffForeignKeys(t: Table, dst: Table, r: Reference, previous: Reference)
    requires Comparable(t, dst)
    ensures DropForeignKey(r) in Diff(t, dst) <==> r in t.references && !HasRelation(dst.references, r)
    ensures AddForeignKey(r) in Diff(t, dst) <==> r in dst.references && !HasRelation(t.references, r)
    ensures UpdateForeignKey(r, previous) in Diff(t, dst) <==>
            r in dst.references && FindRelation(t.references, r) != -1 &&
            previous == t.references[FindRelation(t.references, r)] &&
            (previous.updateOption != r.updateOption || previous.deleteOption != r.deleteOption)
  {
    DroppedReferencesMember(t.references, dst, r);
    AddedReferencesMember(dst.references, t, r, previous);
    if DropForeignKey(r) in Diff(t, dst) { DiffPhase(t, dst, DropForeignKey(r)); }
    if AddForeignKey(r) in Diff(t, dst) { DiffPhase(t, dst, AddForeignKey(r)); }
    if UpdateForeignKey(r, previous) in Diff(t, dst) { DiffPhase(t, dst, UpdateForeignKey(r, previous)); }
  }

  /** With distinct index names, a target index is added exactly when the
      source lacks it or stores other columns under its name, and a source
      index is dropped symmetrically. */
  lemma DiffUniqueIndexes(t: Table, dst: Table, e: UniqueIndex)
    requires Comparable(t, dst)
    requires DistinctIndexNames(t) && DistinctIndexNames(dst)
    ensures AddUniqueIndex(e.name, e.columns) in Diff(t, dst) <==>
            e in dst.uniqueIndexes && LookupIndex(t.uniqueIndexes, e.name) != Some(e.columns)
    ensures DropUniqueIndex(e.name, e.columns) in Diff(t, dst) <==>
            e in t.uniqueIndexes && LookupIndex(dst.uniqueIndexes, e.name) != Some(e.columns)
  {
    IndexChangesMember(dst.uniqueIndexes, t, false, e);
    IndexChangesMember(t.uniqueIndexes, dst, true, e);
    if AddUniqueIndex(e.name, e.columns) in Diff(t, dst) { DiffPhase(t, dst, AddUniqueIndex(e.name, e.columns)); }
    if DropUniqueIndex(e.name, e.columns) in Diff(t, dst) { DiffPhase(t, dst, DropUniqueIndex(e.name, e.columns)); }
  }

  /** Comparing in the other direction turns every added foreign key into a dropped one and back. */
  lemma ForeignKeyAddDrop(a: Table, b: Table, r: Reference)
    requires Comparable(a, b) && Comparable(b, a)
    ensures AddForeignKey(r) in Diff(a, b) <==> DropForeignKey(r) in Diff(b, a)
  {
    DiffForeignKeys(a, b, r, r);
    DiffForeignKeys(b, a, r, r);
  }

  /** Comparing in the other direction turns every added unique index into a
      dropped one and back, whatever the index maps hold. */
  lemma UniqueIndexAddDrop(a: Table, b: Table, name: string, columns: seq<string>)
    requires Comparable(a, b) && Comparable(b, a)
    ensures AddUniqueIndex(name, columns) in Diff(a, b) <==> DropUniqueIndex(name, columns) in Diff(b, a)
  {
    var adding := IndexChanges(b.uniqueIndexes, a, false).migrations;
    var dropping := IndexChanges(b.uniqueIndexes, a, true).migrations;
    IndexChangesDual(b.uniqueIndexes, a);
    if AddUniqueIndex(name, columns) in Diff(a, b) {
      DiffPhase(a, b, AddUniqueIndex(name, columns));
      var k :| 0 <= k < |adding| && adding[k] == AddUniqueIndex(name, columns);
      assert dropping[k] == DropUniqueIndex(name, columns);
    }
    if DropUniqueIndex(name, columns) in Diff(b, a) {
      DiffPhase(b, a, DropUniqueIndex(name, columns));
      var k :| 0 <= k < |dropping| && dropping[k] == DropUniqueIndex(name, columns);
      assert adding[k] == AddUniqueIndex(name, columns);
    }
  }

  // ---------------------------------------------------------------------------
  // Columns in a whole comparison

  /** No primary-key column of `t` has the name `n`. */
  predicate NotPrimaryName(t: Table, n: string) {
    forall d :: d in t.columns && d.primaryKey ==> d.name != n
  }

  /** Some non-key column of `cols` has the name `n`. */
  predicate NamedNonPrimary(cols: seq<Column>, n: string) {
    exists d :: d in cols && !d.primaryKey && d.name == n
  }

  /** For a non-key column with a name that is neither empty nor the target's
      key name, the rename map plays no part in finding a match. */
  lemma MatchNonPrimary(d: Column, c: Column, renames: map<string, string>, dst: Table)
    requires RenamesToPrimaryKey(renames, dst)
    requires !c.primaryKey && c.name != "" && NotPrimaryName(dst, c.name)
    ensures Matches(d, c, renames) <==> !d.primaryKey && d.name == c.name
  {
    if d.name in renames {
      var pk := GetPrimaryKeyColumn(dst).value;
      var i :| 0 <= i < |dst.columns| && dst.columns[i] == pk && (forall j :: 0 <= j < i ==> !dst.columns[j].primaryKey);
    }
  }

  lemma HasColumnNonPrimary(t: Table, c: Column, renames: map<string, string>, dst: Table)
    requires RenamesToPrimaryKey(renames, dst)
    requires !c.primaryKey && c.name != "" && NotPrimaryName(dst, c.name)
    ensures HasColumn(t, c, renames).contains <==> NamedNonPrimary(t.columns, c.name)
  {
    if HasColumn(t, c, renames).contains {
      MatchNonPrimary(t.columns[HasColumn(t, c, renames).index], c, renames, dst);
    }
    if NamedNonPrimary(t.columns, c.name) {
      var d :| d in t.columns && !d.primaryKey && d.name == c.name;
      MatchNonPrimary(d, c, renames, dst);
    }
  }

  lemma {:induction false} DroppedColumnsMember(cols: seq<Column>, dst: Table, c: Column)
    requires AnyPrimaryKey(dst.columns) || !AnyPrimaryKey(cols)
    requires c.name != "" && NotPrimaryName(dst, c.name)
    ensures DropColumn(c) in DroppedColumns(cols, dst).migrations <==>
            c in cols && !c.primaryKey && !NamedNonPrimary(dst.columns, c.name)
    decreases |cols|
  {
    if cols != [] {
      var n := |cols| - 1;
      assert cols == cols[..n] + [cols[n]];
      PrefixComparable(cols, dst);
      DroppedColumnsMember(cols[..n], dst, c);
      DroppedColumnsShape(cols[..n], dst);
      if cols[n] == c && !c.primaryKey {
        HasColumnNonPrimary(dst, c, DroppedColumns(cols[..n], dst).renames, dst);
      }
    }
  }

  lemma {:induction false} AddedColumnsMember(cols: seq<Column>, src: Table, renames: map<string, string>, c: Column)
    ensures AddColumn(c) in AddedOrModified(cols, src, renames) <==>
            c in cols && !c.primaryKey && !HasColumn(src, c, renames).contains
    decreases |cols|
  {
    if cols != [] {
      var n := |cols| - 1;
      assert cols == cols[..n] + [cols[n]];
      AddedColumnsMember(cols[..n], src, renames, c);
    }
  }

  /** A source column that is not a key is dropped exactly when the target has
      no non-key column of that name.  (A name that is empty, or that is the
      target's key name, could match through the rename map instead.) */
  lemma DiffDropColumn(t: Table, dst: Table, c: Column)
    requires Comparable(t, dst)
    requires c.name != "" && NotPrimaryName(dst, c.name)
    ensures DropColumn(c) in Diff(t, dst) <==> c in t.columns && !c.primaryKey && !NamedNonPrimary(dst.columns, c.name)
  {
    DroppedColumnsMember(t.columns, dst, c);
    if DropColumn(c) in Diff(t, dst) { DiffPhase(t, dst, DropColumn(c)); }
  }

  /** A target column that is not a key is added exactly when the source has
      no non-key column of that name; a target key column is never added. */
  lemma DiffAddColumn(t: Table, dst: Table, c: Column)
    requires Comparable(t, dst)
    requires c.name != "" && NotPrimaryName(dst, c.name)
    ensures AddColumn(c) in Diff(t, dst) <==> c in dst.columns && !c.primaryKey && !NamedNonPrimary(t.columns, c.name)
  {
    var renames := DroppedColumns(t.columns, dst).renames;
    AddedColumnsMember(dst.columns, t, renames, c);
    DroppedColumnsShape(t.columns, dst);
    if !c.primaryKey {
      HasColumnNonPrimary(t, c, renames, dst);
    }
    if AddColumn(c) in Diff(t, dst) { DiffPhase(t, dst, AddColumn(c)); }
  }

  /** Comparing in the other direction turns every added column into a dropped one and back. */
  lemma ColumnAddDrop(a: Table, b: Table, c: Column)
    requires Comparable(a, b) && Comparable(b, a)
    requires c.name != "" && NotPrimaryName(a, c.name) && NotPrimaryName(b, c.name)
    ensures AddColumn(c) in Diff(a, b) <==> DropColumn(c) in Diff(b, a)
  {
    DiffAddColumn(a, b, c);
    DiffDropColumn(b, a, c);
  }

  /** Every dropped column is a non-key column of the source, and every
      rename goes from a key column of the source to the target's key. */
  lemma DiffDropsNoPrimaryKey(t: Table, dst: Table)
    requires Comparable(t, dst)
    ensures forall m :: m in Diff(t, dst) && m.DropColumn? ==> !m.column.primaryKey && m.column in t.columns
    ensures forall m :: m in Diff(t, dst) && m.RenameColumn? ==>
              m.oldColumn.primaryKey && m.oldColumn in t.columns && GetPrimaryKeyColumn(dst) == Some(m.newColumn)
  {
    DroppedColumnsShape(t.columns, dst);
    forall m | m in Diff(t, dst) && (m.DropColumn? || m.RenameColumn?)
      ensures DropShape(m, t.columns, dst)
    {
      DiffPhase(t, dst, m);
    }
  }

  /** The new-column pass treats each target column on its own: over a
      concatenation it emits the migrations of each part, in order. */
  lemma AddedOrModifiedSnoc(cols: seq<Column>, c: Column, src: Table, renames: map<string, string>)
    ensures AddedOrModified(cols + [c], src, renames) ==
            AddedOrModified(cols, src, renames) + AddedOrModified([c], src, renames)
  {
    assert (cols + [c])[..|cols|] == cols;
    assert [c][..0] == [];
  }

  lemma MigrationsAssoc(a: seq<Migration>, b: seq<Migration>, c: seq<Migration>)
    ensures (a + b) + c == a + (b + c)
  {
  }

  lemma {:induction false} AddedOrModifiedAppend(a: seq<Column>, b: seq<Column>, src: Table, renames: map<string, string>)
    ensures AddedOrModified(a + b, src, renames) == AddedOrModified(a, src, renames) + AddedOrModified(b, src, renames)
    decreases |b|
  {
    if b == [] {
      assert a + b == a;
    } else {
      var n := |b| - 1;
      assert b == b[..n] + [b[n]];
      assert a + b == (a + b[..n]) + [b[n]];
      AddedOrModifiedAppend(a, b[..n], src, renames);
      AddedOrModifiedSnoc(a + b[..n], b[n], src, renames);
      AddedOrModifiedSnoc(b[..n], b[n], src, renames);
      MigrationsAssoc(AddedOrModified(a, src, renames), AddedOrModified(b[..n], src, renames),
        AddedOrModified([b[n]], src, renames));
    }
  }

  lemma {:induction false} ModifiedColumnsMember(cols: seq<Column>, src: Table, renames: map<string, string>, n: Column, o: Column)
    ensures ModifyColumn(n, o) in AddedOrModified(cols, src, renames) <==>
            n in cols && HasColumn(src, n, renames).contains &&
            o == src.columns[HasColumn(src, n, renames).index] && !Equals(n, o)
    decreases |cols|
  {
    if cols != [] {
      var k := |cols| - 1;
      assert cols == cols[..k] + [cols[k]];
      ModifiedColumnsMember(cols[..k], src, renames, n, o);
    }
  }

  lemma {:induction false} FindIgnoresRenames(cols: seq<Column>, c: Column, renames: map<string, string>, dst: Table, from: nat)
    requires from <= |cols|
    requires RenamesToPrimaryKey(renames, dst)
    requires !c.primaryKey && c.name != "" && NotPrimaryName(dst, c.name)
    ensures FindColumnFrom(cols, c, renames, from) == FindColumnFrom(cols, c, map[], from)
    decreases |cols| - from
  {
    if from < |cols| {
      MatchNonPrimary(cols[from], c, renames, dst);
      MatchNonPrimary(cols[from], c, map[], dst);
      FindIgnoresRenames(cols, c, renames, dst, from + 1);
    }
  }

  /** A target column that is not a key is modified exactly when the first
      non-key source column of its name differs from it by `Equals`; the
      modification carries that source column as the old one. */
  lemma DiffModifyColumn(t: Table, dst: Table, n: Column, o: Column)
    requires Comparable(t, dst)
    requires !n.primaryKey && n.name != "" && NotPrimaryName(dst, n.name)
    ensures ModifyColumn(n, o) in Diff(t, dst) <==>
            n in dst.columns && HasColumn(t, n, map[]).contains &&
            o == t.columns[HasColumn(t, n, map[]).index] && !Equals(n, o)
    ensures HasColumn(t, n, map[]).contains ==>
              t.columns[HasColumn(t, n, map[]).index].name == n.name &&
              !t.columns[HasColumn(t, n, map[]).index].primaryKey
  {
    var renames := DroppedColumns(t.columns, dst).renames;
    DroppedColumnsShape(t.columns, dst);
    FindIgnoresRenames(t.columns, n, renames, dst, 0);
    ModifiedColumnsMember(dst.columns, t, renames, n, o);
    if ModifyColumn(n, o) in Diff(t, dst) { DiffPhase(t, dst, ModifyColumn(n, o)); }
  }

  // ---------------------------------------------------------------------------
  // The primary-key rename

  /** `cols[i]` is the only key column. */
  predicate OnlyPrimaryKey(cols: seq<Column>, i: int) {
    0 <= i < |cols| && cols[i].primaryKey && forall j :: 0 <= j < |cols| && j != i ==> !cols[j].primaryKey
  }

  lemma {:induction false} RenameSteps(cols: seq<Column>, dst: Table, p: Column, iq: int)
    requires OnlyPrimaryKey(dst.columns, iq)
    requires p.primaryKey && p.name != "" && p.name != dst.columns[iq].name
    requires forall c :: c in cols && c.primaryKey ==> c == p
    ensures DroppedColumns(cols, dst).renames == if p in cols then map[p.name := dst.columns[iq].name] else map[]
    ensures p in cols ==> RenameColumn(dst.columns[iq], p) in DroppedColumns(cols, dst).migrations
    decreases |cols|
  {
    var q := dst.columns[iq];
    assert AnyPrimaryKey(dst.columns);
    if cols != [] {
      var n := |cols| - 1;
      assert cols == cols[..n] + [cols[n]];
      RenameSteps(cols[..n], dst, p, iq);
      var prev := DroppedColumns(cols[..n], dst);
      if cols[n].primaryKey {
        assert GetPrimaryKeyColumn(dst) == Some(q);
        forall i | 0 <= i < |dst.columns|
          ensures !Matches(dst.columns[i], p, prev.renames)
        {
          if i != iq {
            assert !dst.columns[i].primaryKey;
          }
        }
      }
    }
  }

  /** When each table has one key column and the names differ, the source key
      is renamed to the target key, the rename map records that, and when the
      names also differ in lower case the key pair is modified as well. */
  lemma PrimaryKeyRename(t: Table, dst: Table, ip: int, iq: int)
    requires OnlyPrimaryKey(t.columns, ip) && OnlyPrimaryKey(dst.columns, iq)
    requires t.columns[ip].name != "" && t.columns[ip].name != dst.columns[iq].name
    ensures Comparable(t, dst)
    ensures RenameColumn(dst.columns[iq], t.columns[ip]) in Diff(t, dst)
    ensures DroppedColumns(t.columns, dst).renames == map[t.columns[ip].name := dst.columns[iq].name]
    ensures ToLower(t.columns[ip].name) != ToLower(dst.columns[iq].name) ==>
              ModifyColumn(dst.columns[iq], t.columns[ip]) in Diff(t, dst)
  {
    var p, q := t.columns[ip], dst.columns[iq];
    assert AnyPrimaryKey(dst.columns);
    forall c | c in t.columns && c.primaryKey
      ensures c == p
    {
      var j :| 0 <= j < |t.columns| && t.columns[j] == c;
    }
    RenameSteps(t.columns, dst, p, iq);
    var renames := DroppedColumns(t.columns, dst).renames;
    assert Matches(p, q, renames);
    var m := HasColumn(t, q, renames);
    assert m.index == ip;
    ModifiedColumnsMember(dst.columns, t, renames, q, p);
  }

  // ---------------------------------------------------------------------------
  // A table compared with itself

  predicate DistinctColumnNames(t: Table) {
    forall i, j :: 0 <= i < j < |t.columns| ==> t.columns[i].name != t.columns[j].name
  }

  predicate NonEmptyColumnNames(t: Table) {
    forall i :: 0 <= i < |t.columns| ==> t.columns[i].name != ""
  }

  predicate DistinctRelations(t: Table) {
    forall i, j :: 0 <= i < j < |t.references| ==> !SameRelation(t.references[i], t.references[j])
  }

  /** When every column of `cols` has a match by name in `dst`, the dropped-column pass emits nothing. */
  lemma {:induction false} NothingDropped(cols: seq<Column>, dst: Table)
    requires forall c :: c in cols ==> exists d :: d in dst.columns && Matches(d, c, map[])
    requires AnyPrimaryKey(dst.columns) || !AnyPrimaryKey(cols)
    ensures DroppedColumns(cols, dst) == DropState([], map[])
    decreases |cols|
  {
    if cols != [] {
      var n := |cols| - 1;
      PrefixComparable(cols, dst);
      forall c | c in cols[..n]
        ensures exists d :: d in dst.columns && Matches(d, c, map[])
      {
        assert c in cols;
      }
      NothingDropped(cols[..n], dst);
      assert cols[n] in cols;
    }
  }

  lemma {:induction false} SelfAdded(cols: seq<Column>, t: Table)
    requires DistinctColumnNames(t) && NonEmptyColumnNames(t)
    requires forall c :: c in cols ==> c in t.columns
    ensures AddedOrModified(cols, t, map[]) == []
    decreases |cols|
  {
    if cols != [] {
      var n := |cols| - 1;
      SelfAdded(cols[..n], t);
      var c := cols[n];
      assert c in cols;
      var i :| 0 <= i < |t.columns| && t.columns[i] == c;
      assert Matches(t.columns[i], c, map[]);
      var m := HasColumn(t, c, map[]);
      assert m.index == i;
    }
  }

  lemma {:induction false} SelfIndexes(entries: seq<UniqueIndex>, t: Table, dropping: bool)
    requires DistinctIndexNames(t)
    requires forall e :: e in entries ==> e in t.uniqueIndexes
    ensures IndexChanges(entries, t, dropping) == IndexState([], [])
    decreases |entries|
  {
    if entries != [] {
      var n := |entries| - 1;
      SelfIndexes(entries[..n], t, dropping);
      var e := entries[n];
      assert e in entries;
      var k :| 0 <= k < |t.uniqueIndexes| && t.uniqueIndexes[k] == e;
      var r := LookupIndex(t.uniqueIndexes, e.name);
      var i :| 0 <= i < |t.uniqueIndexes| && t.uniqueIndexes[i] == UniqueIndex(e.name, r.value) &&
        forall j :: 0 <= j < i ==> t.uniqueIndexes[j].name != e.name;
      assert i == k;
    }
  }

  lemma {:induction false} SelfDroppedReferences(refs: seq<Reference>, t: Table)
    requires forall r :: r in refs ==> r in t.references
    ensures DroppedReferences(refs, t) == []
    decreases |refs|
  {
    if refs != [] {
      var n := |refs| - 1;
      SelfDroppedReferences(refs[..n], t);
      assert refs[n] in refs;
      var i :| 0 <= i < |t.references| && t.references[i] == refs[n];
      assert SameRelation(refs[n], t.references[i]);
    }
  }

  lemma {:induction false} SelfAddedReferences(refs: seq<Reference>, t: Table)
    requires DistinctRelations(t)
    requires forall r :: r in refs ==> r in t.references
    ensures AddedReferences(refs, t) == []
    decreases |refs|
  {
    if refs != [] {
      var n := |refs| - 1;
      SelfAddedReferences(refs[..n], t);
      var r := refs[n];
      assert r in refs;
      var i :| 0 <= i < |t.references| && t.references[i] == r;
      assert SameRelation(r, t.references[i]);
      var k := FindRelation(t.references, r);
      assert k == i by {
        if k < i || k > i {
          assert SameRelation(t.references[k], t.references[i]);
        }
      }
    }
  }

  lemma ColumnsSelf(t: Table)
    requires DistinctColumnNames(t) && NonEmptyColumnNames(t)
    ensures DroppedColumns(t.columns, t) == DropState([], map[])
    ensures AddedOrModified(t.columns, t, map[]) == []
  {
    forall c | c in t.columns
      ensures exists d :: d in t.columns && Matches(d, c, map[])
    {
      assert Matches(c, c, map[]);
    }
    NothingDropped(t.columns, t);
    SelfAdded(t.columns, t);
  }

  lemma IndexesSelf(t: Table)
    requires DistinctIndexNames(t)
    ensures IndexChanges(t.uniqueIndexes, t, false).migrations == []
    ensures IndexChanges(t.uniqueIndexes, t, true).migrations == []
  {
    SelfIndexes(t.uniqueIndexes, t, false);
    SelfIndexes(t.uniqueIndexes, t, true);
  }

  lemma ReferencesSelf(t: Table)
    requires DistinctRelations(t)
    ensures DroppedReferences(t.references, t) == [] && AddedReferences(t.references, t) == []
  {
    SelfDroppedReferences(t.references, t);
    SelfAddedReferences(t.references, t);
  }

  /** A table with distinct, non-empty column names, distinct relations and
      distinct index names needs no migration to become itself. */
  lemma CompareWithItself(t: Table)
    requires DistinctColumnNames(t) && NonEmptyColumnNames(t)
    requires DistinctRelations(t) && DistinctIndexNames(t)
    ensures Diff(t, t) == []
  {
    ColumnsSelf(t);
    IndexesSelf(t);
    ReferencesSelf(t);
  }
}
