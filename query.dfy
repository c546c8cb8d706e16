/**
  The MySQL statements the migrator writes.  A statement built by
  straight-line appends to a `strings.Builder` is a function giving its text;
  a statement built by loops is a method whose loops append to a local string
  standing for the builder, proved equal to a function that describes the
  text as a whole.
 */
module Query {
  import opened Strings
  import opened Schema
  import opened Quoting

  /** The opening of every `ALTER TABLE` statement. */
  function AlterTable(name: string): string { "ALTER TABLE " + name + "\n\t" }

  // ---------------------------------------------------------------------------
  // Column attributes

  /** One attribute of a column clause, in the words the clause uses. */
  datatype Attribute = PrimaryKeyAttribute | NotNull | ExtraText(text: string) | Default(text: string)

  function AttributeText(a: Attribute): string {
    match a
    case PrimaryKeyAttribute => " PRIMARY KEY"
    case NotNull => " NOT NULL"
    case ExtraText(s) => " " + s
    case Default(s) => " " + "DEFAULT " + s
  }

  /** The place of an attribute in a clause: key or nullability first, then
      the extra text, then the default. */
  function Rank(a: Attribute): nat {
    match a
    case PrimaryKeyAttribute => 0
    case NotNull => 0
    case ExtraText(_) => 1
    case Default(_) => 2
  }

  /** Attributes in clause order, each place used at most once. */
  predicate InClauseOrder(attrs: seq<Attribute>) {
    forall i, j :: 0 <= i < j < |attrs| ==> Rank(attrs[i]) < Rank(attrs[j])
  }

  /** The text of a list of attributes, each with its leading space. */
  function Attributes(attrs: seq<Attribute>): string
    decreases |attrs|
  {
    if attrs == [] then "" else AttributeText(attrs[0]) + Attributes(attrs[1..])
  }

  /** The attributes every column statement writes after the type: the extra
      text when there is one, then the default when it is set. */
  function TrailingAttributes(c: Column): (attrs: seq<Attribute>)
    ensures InClauseOrder(attrs)
    ensures PrimaryKeyAttribute !in attrs && NotNull !in attrs
    ensures forall s :: ExtraText(s) in attrs <==> s == c.extra && s != ""
    ensures forall s :: Default(s) in attrs <==> c.defaultValue.valid && s == c.defaultValue.str
  {
    (if c.extra != "" then [ExtraText(c.extra)] else []) +
    (if c.defaultValue.valid then [Default(c.defaultValue.str)] else [])
  }

  /** The attributes of a column in `CREATE TABLE`. */
  function CreateAttributes(c: Column): (attrs: seq<Attribute>)
    ensures InClauseOrder(attrs)
    ensures PrimaryKeyAttribute !in attrs
    ensures NotNull in attrs <==> c.nullable == "NO"
    ensures forall s :: ExtraText(s) in attrs <==> s == c.extra && s != ""
    ensures forall s :: Default(s) in attrs <==> c.defaultValue.valid && s == c.defaultValue.str
  {
    (if c.nullable == "NO" then [NotNull] else []) + TrailingAttributes(c)
  }

  /** The attributes of a column in `ADD COLUMN`: a key is declared as such,
      and only a column that is not a key can be declared `NOT NULL`. */
  function AddAttributes(c: Column): (attrs: seq<Attribute>)
    ensures InClauseOrder(attrs)
    ensures PrimaryKeyAttribute in attrs <==> c.primaryKey
    ensures NotNull in attrs <==> !c.primaryKey && c.nullable == "NO"
    ensures !(PrimaryKeyAttribute in attrs && NotNull in attrs)
    ensures forall s :: ExtraText(s) in attrs <==> s == c.extra && s != ""
    ensures forall s :: Default(s) in attrs <==> c.defaultValue.valid && s == c.defaultValue.str
  {
    (if c.primaryKey then [PrimaryKeyAttribute] else if c.nullable == "NO" then [NotNull] else []) +
    TrailingAttributes(c)
  }

  /** The attributes of a column in `MODIFY COLUMN`: never a key, and
      `NOT NULL` only for a column that is not a key. */
  function ModifyAttributes(c: Column): (attrs: seq<Attribute>)
    ensures InClauseOrder(attrs)
    ensures PrimaryKeyAttribute !in attrs
    ensures NotNull in attrs <==> c.nullable == "NO" && !c.primaryKey
    ensures forall s :: ExtraText(s) in attrs <==> s == c.extra && s != ""
    ensures forall s :: Default(s) in attrs <==> c.defaultValue.valid && s == c.defaultValue.str
  {
    (if c.nullable == "NO" && !c.primaryKey then [NotNull] else []) + TrailingAttributes(c)
  }

  // ---------------------------------------------------------------------------
  // Constraint names

  /** The name of the unique constraint of an index. */
  function UniqueName(indexName: string): string { "uc." + indexName }

  /** The name of the unique constraint `ADD COLUMN` declares inline for a
      unique column. */
  function ColumnUniqueName(t: Table, c: Column): string { "uc." + t.name + "." + c.name }

  /** The name of the constraint of a foreign key, and of its index. */
  function ForeignKeyName(r: Reference): string { "fk." + r.tableName + "." + r.columnName }

  // ---------------------------------------------------------------------------
  // Statements built by straight-line appends

  function DropTableQuery(t: Table): (q: string)
  {
    "DROP TABLE IF EXISTS " + t.name + ";\n"
  }

  /** The unique constraint `ADD COLUMN` appends for a unique column that is
      not a key, or nothing. */
  function InlineUnique(t: Table, c: Column): string {
    if !c.primaryKey && c.uniqueIndex then
      ",\n\tADD CONSTRAINT " + Quote(ColumnUniqueName(t, c)) + " UNIQUE (" + c.name + ")"
    else ""
  }

  function AddColumnQuery(t: Table, c: Column): (q: string)
  {
    AlterTable(t.name) + "ADD COLUMN " + c.name + " " + ToUpper(c.columnType) +
    Attributes(AddAttributes(c)) + InlineUnique(t, c) + ";\n"
  }

  /** Dropping a key column is refused; that case is the precondition. */
  function DropColumnQuery(t: Table, c: Column): (q: string)
    requires !c.primaryKey
  {
    AlterTable(t.name) + "DROP COLUMN " + c.name + ";\n"
  }

  function ModifyColumnQuery(t: Table, c: Column): (q: string)
  {
    AlterTable(t.name) + "MODIFY COLUMN " + c.name + " " + ToUpper(c.columnType) +
    Attributes(ModifyAttributes(c)) + ";\n"
  }

  function RenameColumnQuery(t: Table, newColumn: Column, oldColumn: Column): (q: string)
  {
    AlterTable(t.name) + "RENAME COLUMN " + oldColumn.name + " TO " + newColumn.name + ";\n"
  }

  /** The `REFERENCES` part shared by both ways of declaring a foreign key. */
  function ReferenceTarget(r: Reference): string {
    " REFERENCES " + r.referencedTableName + "(" + r.referencedColumnName + ") ON DELETE " +
    r.deleteOption + " ON UPDATE " + r.updateOption
  }

  function AddReferenceQuery(r: Reference): (q: string)
  {
    AlterTable(r.tableName) + "ADD CONSTRAINT " + Quote(ForeignKeyName(r)) +
    " FOREIGN KEY (" + r.columnName + ")" + ReferenceTarget(r) + ";\n"
  }

  function DropReferenceQuery(r: Reference): (q: string)
  {
    AlterTable(r.tableName) + "DROP CONSTRAINT " + Quote(ForeignKeyName(r)) + ",\n\t" +
    "DROP INDEX " + Quote(ForeignKeyName(r)) + ";\n"
  }

  // ---------------------------------------------------------------------------
  // Lists written by loops

  /** The loop that writes `items` with `sep` after every item but the last. */
  method WriteJoined(sb: string, items: seq<string>, sep: string) returns (out: string)
    ensures out == sb + Join(items, sep)
  {
    out := sb;
    var i := 0;
    while i < |items|
      invariant 0 <= i <= |items|
      invariant out == sb + Join(items[..i], sep) + (if 0 < i < |items| then sep else "")
    {
      assert items[..i + 1] == items[..i] + [items[i]];
      if i > 0 {
        JoinSnoc(items[..i], items[i], sep);
      } else {
        assert items[..1] == [items[0]];
      }
      out := out + items[i];
      if i < |items| - 1 {
        out := out + sep;
      }
      i := i + 1;
    }
    assert items[..|items|] == items;
  }

  // ---------------------------------------------------------------------------
  // CREATE TABLE

  /** The clause of one column in `CREATE TABLE`; the type is written as stored. */
  function ColumnClause(c: Column): string {
    "\t" + c.name + " " + c.columnType + Attributes(CreateAttributes(c))
  }

  /** One clause per column, in declaration order. */
  function ColumnClauses(cols: seq<Column>): (cs: seq<string>)
    ensures |cs| == |cols| && forall i :: 0 <= i < |cols| ==> cs[i] == ColumnClause(cols[i])
  {
    seq(|cols|, i requires 0 <= i < |cols| => ColumnClause(cols[i]))
  }

  function PrimaryKeyClause(t: Table): string {
    "," + "\n\tPRIMARY KEY (" + Join(t.primaryCols, ", ") + ")"
  }

  function UniqueClause(e: UniqueIndex): string {
    "," + "\n\tCONSTRAINT " + Quote(UniqueName(e.name)) + " UNIQUE (" + Join(e.columns, ", ") + ")"
  }

  /** One unique constraint per entry of the index map, in the order of the entries. */
  function UniqueClauses(es: seq<UniqueIndex>): string
    decreases |es|
  {
    if es == [] then "" else UniqueClauses(es[..|es| - 1]) + UniqueClause(es[|es| - 1])
  }

  function ForeignKeyClause(r: Reference): string {
    "\n\tCONSTRAINT " + Quote(ForeignKeyName(r)) + " FOREIGN KEY (" + r.columnName + ")" + ReferenceTarget(r)
  }

  function ForeignKeyClauses(refs: seq<Reference>): (cs: seq<string>)
    ensures |cs| == |refs| && forall i :: 0 <= i < |refs| ==> cs[i] == ForeignKeyClause(refs[i])
  {
    seq(|refs|, i requires 0 <= i < |refs| => ForeignKeyClause(refs[i]))
  }

  /** The foreign keys, one constraint each, or nothing at all without references. */
  function ForeignKeySection(refs: seq<Reference>): string {
    if |refs| > 0 then "," + Join(ForeignKeyClauses(refs), ",") else ""
  }

  /** What `CREATE TABLE` declares between its parentheses: the columns, the
      key, the unique constraints and the foreign keys. */
  function TableElements(t: Table): string {
    Join(ColumnClauses(t.columns), ",\n") + PrimaryKeyClause(t) +
    UniqueClauses(t.uniqueIndexes) + ForeignKeySection(t.references)
  }

  function CreateTableHeader(t: Table): string { "CREATE TABLE " + t.name + " (\n" }

  /** The whole `CREATE TABLE` statement. */
  function CreateTableText(t: Table): (q: string)
  {
    CreateTableHeader(t) + TableElements(t) + "\n);\n"
  }

  lemma UniqueClausesSnoc(es: seq<UniqueIndex>, i: nat)
    requires i < |es|
    ensures UniqueClauses(es[..i + 1]) == UniqueClauses(es[..i]) + UniqueClause(es[i])
  {
    assert es[..i + 1][..i] == es[..i];
  }

  /** One entry of the index map: the constraint opened, its columns written
      by the inner loop, the constraint closed. */
  method WriteUniqueClause(sb: string, e: UniqueIndex) returns (out: string)
    ensures out == sb + UniqueClause(e)
  {
    out := sb + "," + "\n\tCONSTRAINT " + Quote(UniqueName(e.name)) + " UNIQUE (";
    out := WriteJoined(out, e.columns, ", ");
    out := out + ")";
  }

  /** The loop over the index map. */
  method WriteUniqueClauses(sb: string, es: seq<UniqueIndex>) returns (out: string)
    ensures out == sb + UniqueClauses(es)
  {
    out := sb;
    var i := 0;
    while i < |es|
      invariant 0 <= i <= |es|
      invariant out == sb + UniqueClauses(es[..i])
    {
      UniqueClausesSnoc(es, i);
      AppendAssoc(sb, UniqueClauses(es[..i]), UniqueClause(es[i]));
      out := WriteUniqueClause(out, es[i]);
      i := i + 1;
    }
    assert es[..|es|] == es;
  }

  method WritePrimaryKey(sb: string, t: Table) returns (out: string)
    ensures out == sb + PrimaryKeyClause(t)
  {
    out := sb + "," + "\n\tPRIMARY KEY (";
    out := WriteJoined(out, t.primaryCols, ", ");
    out := out + ")";
  }

  /** The foreign keys, written only when there are some. */
  method WriteForeignKeys(sb: string, refs: seq<Reference>) returns (out: string)
    ensures out == sb + ForeignKeySection(refs)
  {
    out := sb;
    if |refs| > 0 {
      out := out + ",";
      out := WriteJoined(out, ForeignKeyClauses(refs), ",");
    } else {
      AppendEmpty(sb);
    }
  }

  lemma Regroup5(h: string, a: string, b: string, c: string, d: string, e: string)
    ensures ((((h + a) + b) + c) + d) + e == (h + (((a + b) + c) + d)) + e
  {
  }

  method CreateTableQuery(t: Table) returns (q: string)
    ensures q == CreateTableText(t)
  {
    var sb := CreateTableHeader(t);
    sb := WriteJoined(sb, ColumnClauses(t.columns), ",\n");
    sb := WritePrimaryKey(sb, t);
    sb := WriteUniqueClauses(sb, t.uniqueIndexes);
    sb := WriteForeignKeys(sb, t.references);
    q := sb + "\n);\n";
    Regroup5(CreateTableHeader(t), Join(ColumnClauses(t.columns), ",\n"), PrimaryKeyClause(t),
             UniqueClauses(t.uniqueIndexes), ForeignKeySection(t.references), "\n);\n");
  }

  // ---------------------------------------------------------------------------
  // Unique indexes

  function AddUniqueIndexText(t: Table, indexName: string, colNames: seq<string>): (q: string)
  {
    AlterTable(t.name) + "ADD CONSTRAINT " + Quote(UniqueName(indexName)) + " UNIQUE (" +
    Join(colNames, ", ") + ");\n"
  }

  method AddUniqueIndexQuery(t: Table, indexName: string, colNames: seq<string>) returns (q: string)
    ensures q == AddUniqueIndexText(t, indexName, colNames)
  {
    var sb := AlterTable(t.name);
    sb := sb + "ADD CONSTRAINT " + Quote(UniqueName(indexName)) + " UNIQUE (";
    sb := WriteJoined(sb, colNames, ", ");
    q := sb + ");\n";
  }

  /** `slices.IndexFunc` over the references, matching on the column name:
      the first position whose reference starts at `colName`, or -1. */
  function ReferenceIndex(refs: seq<Reference>, colName: string): (k: int)
    ensures -1 <= k < |refs|
    ensures k >= 0 ==> refs[k].columnName == colName
    ensures forall j :: 0 <= j < |refs| && (k == -1 || j < k) ==> refs[j].columnName != colName
    decreases |refs|
  {
    if refs == [] then -1
    else if refs[0].columnName == colName then 0
    else
      var k := ReferenceIndex(refs[1..], colName);
      if k == -1 then -1 else k + 1
  }

  /** The references met by the columns of an index: for each column name in
      turn that some reference starts at, the first such reference. */
  function ReferencesFor(refs: seq<Reference>, colNames: seq<string>): (rs: seq<Reference>)
    ensures |rs| <= |colNames|
    ensures forall r :: r in rs ==> r in refs && r.columnName in colNames
    decreases |colNames|
  {
    if colNames == [] then []
    else
      var n := |colNames| - 1;
      var k := ReferenceIndex(refs, colNames[n]);
      ReferencesFor(refs, colNames[..n]) + (if k >= 0 then [refs[k]] else [])
  }

  /** The statements `statement` gives for each of `rs`, in order. */
  function Statements(rs: seq<Reference>, statement: Reference -> string): string
    decreases |rs|
  {
    if rs == [] then "" else Statements(rs[..|rs| - 1], statement) + statement(rs[|rs| - 1])
  }

  lemma ReferencesForSnoc(refs: seq<Reference>, colNames: seq<string>, c: string)
    ensures ReferencesFor(refs, colNames + [c]) ==
            ReferencesFor(refs, colNames) + (if ReferenceIndex(refs, c) >= 0 then [refs[ReferenceIndex(refs, c)]] else [])
  {
    assert (colNames + [c])[..|colNames|] == colNames;
  }

  lemma StatementsSnoc(rs: seq<Reference>, r: Reference, statement: Reference -> string)
    ensures Statements(rs + [r], statement) == Statements(rs, statement) + statement(r)
  {
    assert (rs + [r])[..|rs|] == rs;
  }

  /** The comment that announces the foreign keys dropped and re-added around
      the removal of a unique constraint. */
  const RemovalNotice: string :=
    "\n-- Removing unique constraint" + " from a foreign key requires" + " dropping and then adding back" +
    " the foreign key!\n"

  /** One more column adds the statement for its reference, if it has one. */
  lemma StatementsStep(refs: seq<Reference>, colNames: seq<string>, i: nat, statement: Reference -> string)
    requires i < |colNames|
    ensures var k := ReferenceIndex(refs, colNames[i]);
      Statements(ReferencesFor(refs, colNames[..i + 1]), statement) ==
      Statements(ReferencesFor(refs, colNames[..i]), statement) + (if k >= 0 then statement(refs[k]) else "")
  {
    assert colNames[..i + 1] == colNames[..i] + [colNames[i]];
    ReferencesForSnoc(refs, colNames[..i], colNames[i]);
    var k := ReferenceIndex(refs, colNames[i]);
    if k >= 0 {
      StatementsSnoc(ReferencesFor(refs, colNames[..i]), refs[k], statement);
    } else {
      assert ReferencesFor(refs, colNames[..i] + [colNames[i]]) == ReferencesFor(refs, colNames[..i]);
      AppendEmpty(Statements(ReferencesFor(refs, colNames[..i]), statement));
    }
  }

  /** Dropping a unique constraint: the notice when the index has columns,
      the foreign keys on those columns dropped, the constraint dropped, and
      the same foreign keys added back in the same order. */
  function DropUniqueIndexText(t: Table, indexName: string, colNames: seq<string>): string {
    var rs := ReferencesFor(t.references, colNames);
    (if |colNames| > 0 then RemovalNotice else "") + Statements(rs, DropReferenceQuery) +
    AlterTable(t.name) + "DROP CONSTRAINT " + Quote(UniqueName(indexName)) + ";\n" +
    Statements(rs, AddReferenceQuery)
  }

  /** A loop over the index columns that writes `statement` for the first
      reference starting at each column, when there is one.  The first loop
      of `DropUniqueIndexQuery` writes the drop statements, the second the
      add statements. */
  method WriteReferenceStatements(sb: string, refs: seq<Reference>, colNames: seq<string>,
                                  statement: Reference -> string) returns (out: string)
    ensures out == sb + Statements(ReferencesFor(refs, colNames), statement)
  {
    out := sb;
    var i := 0;
    while i < |colNames|
      invariant 0 <= i <= |colNames|
      invariant out == sb + Statements(ReferencesFor(refs, colNames[..i]), statement)
    {
      var k := ReferenceIndex(refs, colNames[i]);
      StatementsStep(refs, colNames, i, statement);
      if k != -1 {
        AppendAssoc(sb, Statements(ReferencesFor(refs, colNames[..i]), statement), statement(refs[k]));
        out := out + statement(refs[k]);
      } else {
        AppendEmpty(out);
      }
      i := i + 1;
    }
    assert colNames[..|colNames|] == colNames;
  }

  method DropUniqueIndexQuery(t: Table, indexName: string, colNames: seq<string>) returns (q: string)
    ensures q == DropUniqueIndexText(t, indexName, colNames)
  {
    var sb := "";
    if |colNames| > 0 {
      sb := RemovalNotice;
    }
    sb := WriteReferenceStatements(sb, t.references, colNames, DropReferenceQuery);
    sb := sb + AlterTable(t.name) + "DROP CONSTRAINT " + Quote(UniqueName(indexName)) + ";\n";
    sb := WriteReferenceStatements(sb, t.references, colNames, AddReferenceQuery);
    q := sb;
  }
}
