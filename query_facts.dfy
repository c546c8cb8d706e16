/**
  Properties of the statement texts: the constraint names each statement
  backquotes, the frame every statement keeps, and what the text of a
  statement determines.
 */
module QueryFacts {
  import opened Strings
  import opened Schema
  import opened Quoting
  import opened Query

  // ---------------------------------------------------------------------------
  // Text without backquotes

  predicate AllPlain(ns: seq<string>) { forall n :: n in ns ==> Plain(n) }

  /** The parts of a column that its clauses write. */
  predicate PlainColumn(c: Column) {
    Plain(c.name) && Plain(c.columnType) && Plain(c.extra) && Plain(c.defaultValue.str)
  }

  predicate PlainReference(r: Reference) {
    Plain(r.tableName) && Plain(r.columnName) && Plain(r.referencedTableName) &&
    Plain(r.referencedColumnName) && Plain(r.deleteOption) && Plain(r.updateOption)
  }

  predicate PlainReferences(refs: seq<Reference>) { forall r :: r in refs ==> PlainReference(r) }

  predicate PlainIndex(e: UniqueIndex) { Plain(e.name) && AllPlain(e.columns) }

  predicate PlainTable(t: Table) {
    Plain(t.name) &&
    (forall c :: c in t.columns ==> PlainColumn(c)) &&
    AllPlain(t.primaryCols) &&
    (forall e :: e in t.uniqueIndexes ==> PlainIndex(e)) &&
    PlainReferences(t.references)
  }

  lemma AlterLiterals()
    ensures Plain("ALTER TABLE ") && Plain("\n\t") && Plain(";\n")
  {
  }

  lemma NameLiterals()
    ensures Plain("uc.") && Plain("fk.") && Plain(".") && Plain(" ")
  {
  }

  lemma AttributeLiterals()
    ensures Plain(" PRIMARY KEY") && Plain(" NOT NULL") && Plain("DEFAULT ")
  {
  }

  lemma ColumnLiterals()
    ensures Plain("ADD COLUMN ") && Plain("DROP COLUMN ") && Plain("MODIFY COLUMN ")
  {
  }

  lemma RenameLiterals()
    ensures Plain("RENAME COLUMN ") && Plain(" TO ") && Plain("DROP TABLE IF EXISTS ")
  {
  }

  lemma UniqueLiterals()
    ensures Plain(",\n\tADD CONSTRAINT ") && Plain(" UNIQUE (") && Plain(")") && Plain(");\n")
  {
  }

  lemma TargetLiterals()
    ensures Plain(" REFERENCES ") && Plain("(") && Plain(") ON DELETE ") && Plain(" ON UPDATE ")
  {
  }

  lemma ConstraintLiterals()
    ensures Plain("ADD CONSTRAINT ") && Plain(" FOREIGN KEY (") && Plain("DROP CONSTRAINT ")
    ensures Plain(",\n\t") && Plain("DROP INDEX ")
  {
  }

  lemma CreateLiterals()
    ensures Plain("\t") && Plain(",\n") && Plain(",") && Plain("\n\tPRIMARY KEY (") && Plain(", ")
    ensures Plain("\n\tCONSTRAINT ") && Plain("CREATE TABLE ") && Plain(" (\n") && Plain("\n);\n")
  {
  }

  lemma NoticePlain()
    ensures Plain(RemovalNotice)
  {
    var a, b, c, d := "\n-- Removing unique constraint", " from a foreign key requires",
                      " dropping and then adding back", " the foreign key!\n";
    assert Plain(a);
    assert Plain(b);
    assert Plain(c);
    assert Plain(d);
    PlainAppend(a, b);
    PlainAppend(a + b, c);
    PlainAppend(a + b + c, d);
  }

  lemma Plain3(a: string, b: string, c: string)
    requires Plain(a) && Plain(b) && Plain(c)
    ensures Plain(a + b + c)
  {
    PlainAppend(a, b);
    PlainAppend(a + b, c);
  }

  lemma UpperPlain(s: string)
    requires Plain(s)
    ensures Plain(ToUpper(s))
  {
  }

  lemma {:induction false} JoinPlain(parts: seq<string>, sep: string)
    requires AllPlain(parts) && Plain(sep)
    ensures Plain(Join(parts, sep))
    decreases |parts|
  {
    if |parts| > 1 {
      assert parts[0] in parts;
      assert forall n :: n in parts[1..] ==> n in parts;
      JoinPlain(parts[1..], sep);
      Plain3(parts[0], sep, Join(parts[1..], sep));
    } else if |parts| == 1 {
      assert parts[0] in parts;
    }
  }

  lemma AlterTablePlain(name: string)
    requires Plain(name)
    ensures Plain(AlterTable(name))
  {
    AlterLiterals();
    Plain3("ALTER TABLE ", name, "\n\t");
  }

  lemma {:induction false} AttributesPlain(attrs: seq<Attribute>, c: Column)
    requires PlainColumn(c)
    requires forall s :: ExtraText(s) in attrs ==> s == c.extra
    requires forall s :: Default(s) in attrs ==> s == c.defaultValue.str
    ensures Plain(Attributes(attrs))
    decreases |attrs|
  {
    if attrs != [] {
      assert attrs[0] in attrs;
      assert forall a :: a in attrs[1..] ==> a in attrs;
      AttributesPlain(attrs[1..], c);
      AttributeLiterals();
      NameLiterals();
      match attrs[0]
      case PrimaryKeyAttribute =>
      case NotNull =>
      case ExtraText(s) => PlainAppend(" ", s);
      case Default(s) => Plain3(" ", "DEFAULT ", s);
      PlainAppend(AttributeText(attrs[0]), Attributes(attrs[1..]));
    }
  }

  // ---------------------------------------------------------------------------
  // The constraint names each statement backquotes

  function ForeignKeyNames(rs: seq<Reference>): (ns: seq<string>)
    ensures |ns| == |rs| && forall i :: 0 <= i < |rs| ==> ns[i] == ForeignKeyName(rs[i])
    decreases |rs|
  {
    if rs == [] then [] else ForeignKeyNames(rs[..|rs| - 1]) + [ForeignKeyName(rs[|rs| - 1])]
  }

  /** Each name of `ns` twice in a row: a foreign key's constraint, then its index. */
  function Doubled(ns: seq<string>): (d: seq<string>)
    ensures |d| == 2 * |ns|
    ensures forall i :: 0 <= i < |ns| ==> d[2 * i] == ns[i] && d[2 * i + 1] == ns[i]
    decreases |ns|
  {
    if ns == [] then [] else Doubled(ns[..|ns| - 1]) + [ns[|ns| - 1], ns[|ns| - 1]]
  }

  function UniqueNames(es: seq<UniqueIndex>): (ns: seq<string>)
    ensures |ns| == |es| && forall i :: 0 <= i < |es| ==> ns[i] == UniqueName(es[i].name)
    decreases |es|
  {
    if es == [] then [] else UniqueNames(es[..|es| - 1]) + [UniqueName(es[|es| - 1].name)]
  }

  lemma ForeignKeyNamePlain(r: Reference)
    requires PlainReference(r)
    ensures Plain(ForeignKeyName(r))
  {
    NameLiterals();
    Plain3("fk.", r.tableName, ".");
    PlainAppend("fk." + r.tableName + ".", r.columnName);
  }

  lemma DropTableMentions(t: Table)
    requires Plain(t.name)
    ensures Mentions(DropTableQuery(t), [])
  {
    AlterLiterals();
    RenameLiterals();
    Plain3("DROP TABLE IF EXISTS ", t.name, ";\n");
    MentionsPlain(DropTableQuery(t));
  }

  lemma DropColumnMentions(t: Table, c: Column)
    requires !c.primaryKey && Plain(t.name) && Plain(c.name)
    ensures Mentions(DropColumnQuery(t, c), [])
  {
    AlterTablePlain(t.name);
    AlterLiterals();
    ColumnLiterals();
    Plain3(AlterTable(t.name), "DROP COLUMN ", c.name);
    PlainAppend(AlterTable(t.name) + "DROP COLUMN " + c.name, ";\n");
    MentionsPlain(DropColumnQuery(t, c));
  }

  lemma RenameColumnMentions(t: Table, newColumn: Column, oldColumn: Column)
    requires Plain(t.name) && Plain(newColumn.name) && Plain(oldColumn.name)
    ensures Mentions(RenameColumnQuery(t, newColumn, oldColumn), [])
  {
    AlterTablePlain(t.name);
    AlterLiterals();
    RenameLiterals();
    var a := AlterTable(t.name) + "RENAME COLUMN " + oldColumn.name;
    Plain3(AlterTable(t.name), "RENAME COLUMN ", oldColumn.name);
    Plain3(a, " TO ", newColumn.name);
    PlainAppend(a + " TO " + newColumn.name, ";\n");
    MentionsPlain(RenameColumnQuery(t, newColumn, oldColumn));
  }

  /** The text every column statement writes up to its attributes. */
  lemma ColumnHeadPlain(t: Table, verb: string, c: Column)
    requires Plain(t.name) && Plain(verb) && PlainColumn(c)
    ensures Plain(AlterTable(t.name) + verb + c.name + " " + ToUpper(c.columnType))
  {
    AlterTablePlain(t.name);
    NameLiterals();
    UpperPlain(c.columnType);
    Plain3(AlterTable(t.name), verb, c.name);
    Plain3(AlterTable(t.name) + verb + c.name, " ", ToUpper(c.columnType));
  }

  lemma ModifyColumnMentions(t: Table, c: Column)
    requires Plain(t.name) && PlainColumn(c)
    ensures Mentions(ModifyColumnQuery(t, c), [])
  {
    ColumnLiterals();
    AlterLiterals();
    ColumnHeadPlain(t, "MODIFY COLUMN ", c);
    AttributesPlain(ModifyAttributes(c), c);
    Plain3(AlterTable(t.name) + "MODIFY COLUMN " + c.name + " " + ToUpper(c.columnType),
           Attributes(ModifyAttributes(c)), ";\n");
    MentionsPlain(ModifyColumnQuery(t, c));
  }

  lemma InlineUniqueMentions(t: Table, c: Column)
    requires Plain(t.name) && PlainColumn(c)
    ensures Mentions(InlineUnique(t, c), if !c.primaryKey && c.uniqueIndex then [ColumnUniqueName(t, c)] else [])
  {
    if !c.primaryKey && c.uniqueIndex {
      UniqueLiterals();
      NameLiterals();
      var n := ColumnUniqueName(t, c);
      Plain3("uc.", t.name, ".");
      PlainAppend("uc." + t.name + ".", c.name);
      var a := ",\n\tADD CONSTRAINT ";
      MentionsPlain(a);
      MentionsThenQuote(a, n, []);
      assert [] + [n] == [n];
      MentionsThenPlain(a + Quote(n), " UNIQUE (", [n]);
      MentionsThenPlain(a + Quote(n) + " UNIQUE (", c.name, [n]);
      MentionsThenPlain(a + Quote(n) + " UNIQUE (" + c.name, ")", [n]);
    } else {
      MentionsPlain("");
    }
  }

  lemma AddColumnMentions(t: Table, c: Column)
    requires Plain(t.name) && PlainColumn(c)
    ensures Mentions(AddColumnQuery(t, c), if !c.primaryKey && c.uniqueIndex then [ColumnUniqueName(t, c)] else [])
  {
    ColumnLiterals();
    AlterLiterals();
    ColumnHeadPlain(t, "ADD COLUMN ", c);
    AttributesPlain(AddAttributes(c), c);
    var head := AlterTable(t.name) + "ADD COLUMN " + c.name + " " + ToUpper(c.columnType) +
                Attributes(AddAttributes(c));
    PlainAppend(AlterTable(t.name) + "ADD COLUMN " + c.name + " " + ToUpper(c.columnType),
                Attributes(AddAttributes(c)));
    MentionsPlain(head);
    var ns := if !c.primaryKey && c.uniqueIndex then [ColumnUniqueName(t, c)] else [];
    InlineUniqueMentions(t, c);
    MentionsAppend(head, InlineUnique(t, c), [], ns);
    assert [] + ns == ns;
    MentionsThenPlain(head + InlineUnique(t, c), ";\n", ns);
  }

  lemma ReferenceTargetPlain(r: Reference)
    requires PlainReference(r)
    ensures Plain(ReferenceTarget(r))
  {
    TargetLiterals();
    var a := " REFERENCES " + r.referencedTableName + "(";
    Plain3(" REFERENCES ", r.referencedTableName, "(");
    Plain3(a, r.referencedColumnName, ") ON DELETE ");
    Plain3(a + r.referencedColumnName + ") ON DELETE ", r.deleteOption, " ON UPDATE ");
    PlainAppend(a + r.referencedColumnName + ") ON DELETE " + r.deleteOption + " ON UPDATE ", r.updateOption);
  }

  lemma AddReferenceMentions(r: Reference)
    requires PlainReference(r)
    ensures Mentions(AddReferenceQuery(r), [ForeignKeyName(r)])
  {
    var n := ForeignKeyName(r);
    ForeignKeyNamePlain(r);
    ReferenceTargetPlain(r);
    AlterTablePlain(r.tableName);
    AlterLiterals();
    ConstraintLiterals();
    UniqueLiterals();
    var a := AlterTable(r.tableName) + "ADD CONSTRAINT ";
    PlainAppend(AlterTable(r.tableName), "ADD CONSTRAINT ");
    MentionsPlain(a);
    MentionsThenQuote(a, n, []);
    assert [] + [n] == [n];
    var b := a + Quote(n);
    MentionsThenPlain(b, " FOREIGN KEY (", [n]);
    MentionsThenPlain(b + " FOREIGN KEY (", r.columnName, [n]);
    MentionsThenPlain(b + " FOREIGN KEY (" + r.columnName, ")", [n]);
    MentionsThenPlain(b + " FOREIGN KEY (" + r.columnName + ")", ReferenceTarget(r), [n]);
    MentionsThenPlain(b + " FOREIGN KEY (" + r.columnName + ")" + ReferenceTarget(r), ";\n", [n]);
  }

  /** Dropping a foreign key names it twice: the constraint, then its index. */
  lemma DropReferenceMentions(r: Reference)
    requires PlainReference(r)
    ensures Mentions(DropReferenceQuery(r), [ForeignKeyName(r), ForeignKeyName(r)])
  {
    var n := ForeignKeyName(r);
    ForeignKeyNamePlain(r);
    AlterTablePlain(r.tableName);
    AlterLiterals();
    ConstraintLiterals();
    var a := AlterTable(r.tableName) + "DROP CONSTRAINT ";
    PlainAppend(AlterTable(r.tableName), "DROP CONSTRAINT ");
    MentionsPlain(a);
    MentionsThenQuote(a, n, []);
    assert [] + [n] == [n];
    MentionsThenPlain(a + Quote(n), ",\n\t", [n]);
    MentionsThenPlain(a + Quote(n) + ",\n\t", "DROP INDEX ", [n]);
    MentionsThenQuote(a + Quote(n) + ",\n\t" + "DROP INDEX ", n, [n]);
    MentionsThenPlain(a + Quote(n) + ",\n\t" + "DROP INDEX " + Quote(n), ";\n", [n, n]);
  }

  lemma AddUniqueIndexMentions(t: Table, indexName: string, colNames: seq<string>)
    requires Plain(t.name) && Plain(indexName) && AllPlain(colNames)
    ensures Mentions(AddUniqueIndexText(t, indexName, colNames), [UniqueName(indexName)])
  {
    var n := UniqueName(indexName);
    NameLiterals();
    PlainAppend("uc.", indexName);
    AlterTablePlain(t.name);
    ConstraintLiterals();
    UniqueLiterals();
    CreateLiterals();
    JoinPlain(colNames, ", ");
    var a := AlterTable(t.name) + "ADD CONSTRAINT ";
    PlainAppend(AlterTable(t.name), "ADD CONSTRAINT ");
    MentionsPlain(a);
    MentionsThenQuote(a, n, []);
    assert [] + [n] == [n];
    MentionsThenPlain(a + Quote(n), " UNIQUE (", [n]);
    MentionsThenPlain(a + Quote(n) + " UNIQUE (", Join(colNames, ", "), [n]);
    MentionsThenPlain(a + Quote(n) + " UNIQUE (" + Join(colNames, ", "), ");\n", [n]);
  }

  lemma ReferencesForPlain(refs: seq<Reference>, colNames: seq<string>)
    requires PlainReferences(refs)
    ensures PlainReferences(ReferencesFor(refs, colNames))
  {
  }

  /** The names the statements about `rs` backquote, statement by statement. */
  function NamesOf(rs: seq<Reference>, names: Reference -> seq<string>): seq<string>
    decreases |rs|
  {
    if rs == [] then [] else NamesOf(rs[..|rs| - 1], names) + names(rs[|rs| - 1])
  }

  lemma {:induction false} StatementsMentions(rs: seq<Reference>, statement: Reference -> string,
                                             names: Reference -> seq<string>)
    requires forall r :: r in rs ==> Mentions(statement(r), names(r))
    ensures Mentions(Statements(rs, statement), NamesOf(rs, names))
    decreases |rs|
  {
    if rs == [] {
      MentionsPlain("");
    } else {
      var n := |rs| - 1;
      assert forall r :: r in rs[..n] ==> r in rs;
      StatementsMentions(rs[..n], statement, names);
      assert rs[n] in rs;
      MentionsAppend(Statements(rs[..n], statement), statement(rs[n]), NamesOf(rs[..n], names), names(rs[n]));
    }
  }

  function DropNames(r: Reference): seq<string> { [ForeignKeyName(r), ForeignKeyName(r)] }

  function AddNames(r: Reference): seq<string> { [ForeignKeyName(r)] }

  lemma {:induction false} DropNamesOf(rs: seq<Reference>)
    ensures NamesOf(rs, DropNames) == Doubled(ForeignKeyNames(rs))
    decreases |rs|
  {
    if rs != [] {
      DropNamesOf(rs[..|rs| - 1]);
    }
  }

  lemma {:induction false} AddNamesOf(rs: seq<Reference>)
    ensures NamesOf(rs, AddNames) == ForeignKeyNames(rs)
    decreases |rs|
  {
    if rs != [] {
      AddNamesOf(rs[..|rs| - 1]);
    }
  }

  lemma DroppedReferencesMentions(rs: seq<Reference>)
    requires PlainReferences(rs)
    ensures Mentions(Statements(rs, DropReferenceQuery), Doubled(ForeignKeyNames(rs)))
  {
    forall r | r in rs
      ensures Mentions(DropReferenceQuery(r), DropNames(r))
    {
      DropReferenceMentions(r);
    }
    StatementsMentions(rs, DropReferenceQuery, DropNames);
    DropNamesOf(rs);
  }

  lemma AddedReferencesMentions(rs: seq<Reference>)
    requires PlainReferences(rs)
    ensures Mentions(Statements(rs, AddReferenceQuery), ForeignKeyNames(rs))
  {
    forall r | r in rs
      ensures Mentions(AddReferenceQuery(r), AddNames(r))
    {
      AddReferenceMentions(r);
    }
    StatementsMentions(rs, AddReferenceQuery, AddNames);
    AddNamesOf(rs);
  }

  /** Dropping a unique constraint names each foreign key met twice as it is
      dropped, then the constraint, then each foreign key again, in the same
      order, as it is added back. */
  lemma DropUniqueIndexMentions(t: Table, indexName: string, colNames: seq<string>)
    requires Plain(t.name) && Plain(indexName) && PlainReferences(t.references)
    ensures var fks := ForeignKeyNames(ReferencesFor(t.references, colNames));
      Mentions(DropUniqueIndexText(t, indexName, colNames), Doubled(fks) + [UniqueName(indexName)] + fks)
  {
    var rs := ReferencesFor(t.references, colNames);
    var fks := ForeignKeyNames(rs);
    var u := UniqueName(indexName);
    ReferencesForPlain(t.references, colNames);
    NoticePlain();
    NameLiterals();
    AlterLiterals();
    ConstraintLiterals();
    PlainAppend("uc.", indexName);
    AlterTablePlain(t.name);
    var notice := if |colNames| > 0 then RemovalNotice else "";
    MentionsPlain(notice);
    DroppedReferencesMentions(rs);
    var a := notice + Statements(rs, DropReferenceQuery);
    MentionsAppend(notice, Statements(rs, DropReferenceQuery), [], Doubled(fks));
    assert [] + Doubled(fks) == Doubled(fks);
    MentionsThenPlain(a, AlterTable(t.name), Doubled(fks));
    MentionsThenPlain(a + AlterTable(t.name), "DROP CONSTRAINT ", Doubled(fks));
    var b := a + AlterTable(t.name) + "DROP CONSTRAINT ";
    MentionsThenQuote(b, u, Doubled(fks));
    MentionsThenPlain(b + Quote(u), ";\n", Doubled(fks) + [u]);
    AddedReferencesMentions(rs);
    MentionsAppend(b + Quote(u) + ";\n", Statements(rs, AddReferenceQuery), Doubled(fks) + [u], fks);
  }

  lemma ColumnClausePlain(c: Column)
    requires PlainColumn(c)
    ensures Plain(ColumnClause(c))
  {
    CreateLiterals();
    NameLiterals();
    AttributesPlain(CreateAttributes(c), c);
    Plain3("\t", c.name, " ");
    Plain3("\t" + c.name + " ", c.columnType, Attributes(CreateAttributes(c)));
  }

  lemma ColumnsPlain(cols: seq<Column>)
    requires forall c :: c in cols ==> PlainColumn(c)
    ensures Plain(Join(ColumnClauses(cols), ",\n"))
  {
    var cs := ColumnClauses(cols);
    forall i | 0 <= i < |cs|
      ensures Plain(cs[i])
    {
      assert cols[i] in cols;
      ColumnClausePlain(cols[i]);
    }
    CreateLiterals();
    JoinPlain(cs, ",\n");
  }

  lemma PrimaryKeyClausePlain(t: Table)
    requires AllPlain(t.primaryCols)
    ensures Plain(PrimaryKeyClause(t))
  {
    CreateLiterals();
    UniqueLiterals();
    JoinPlain(t.primaryCols, ", ");
    Plain3(",", "\n\tPRIMARY KEY (", Join(t.primaryCols, ", "));
    PlainAppend("," + "\n\tPRIMARY KEY (" + Join(t.primaryCols, ", "), ")");
  }

  lemma UniqueClauseMentions(e: UniqueIndex)
    requires PlainIndex(e)
    ensures Mentions(UniqueClause(e), [UniqueName(e.name)])
  {
    var n := UniqueName(e.name);
    NameLiterals();
    PlainAppend("uc.", e.name);
    CreateLiterals();
    UniqueLiterals();
    JoinPlain(e.columns, ", ");
    var a := "," + "\n\tCONSTRAINT ";
    PlainAppend(",", "\n\tCONSTRAINT ");
    MentionsPlain(a);
    MentionsThenQuote(a, n, []);
    assert [] + [n] == [n];
    MentionsThenPlain(a + Quote(n), " UNIQUE (", [n]);
    MentionsThenPlain(a + Quote(n) + " UNIQUE (", Join(e.columns, ", "), [n]);
    MentionsThenPlain(a + Quote(n) + " UNIQUE (" + Join(e.columns, ", "), ")", [n]);
  }

  lemma UniqueClausesStep(es: seq<UniqueIndex>)
    requires es != [] && PlainIndex(es[|es| - 1])
    requires Mentions(UniqueClauses(es[..|es| - 1]), UniqueNames(es[..|es| - 1]))
    ensures Mentions(UniqueClauses(es), UniqueNames(es))
  {
    var n := |es| - 1;
    UniqueClauseMentions(es[n]);
    MentionsAppend(UniqueClauses(es[..n]), UniqueClause(es[n]), UniqueNames(es[..n]), [UniqueName(es[n].name)]);
  }

  lemma {:induction false} UniqueClausesMentions(es: seq<UniqueIndex>)
    requires forall e :: e in es ==> PlainIndex(e)
    ensures Mentions(UniqueClauses(es), UniqueNames(es))
    decreases |es|
  {
    if es == [] {
      MentionsPlain("");
    } else {
      var n := |es| - 1;
      assert forall e :: e in es[..n] ==> e in es;
      UniqueClausesMentions(es[..n]);
      assert es[n] in es;
      UniqueClausesStep(es);
    }
  }

  lemma ForeignKeyClauseMentions(r: Reference)
    requires PlainReference(r)
    ensures Mentions(ForeignKeyClause(r), [ForeignKeyName(r)])
  {
    var n := ForeignKeyName(r);
    ForeignKeyNamePlain(r);
    ReferenceTargetPlain(r);
    CreateLiterals();
    ConstraintLiterals();
    UniqueLiterals();
    var a := "\n\tCONSTRAINT ";
    MentionsPlain(a);
    MentionsThenQuote(a, n, []);
    assert [] + [n] == [n];
    var b := a + Quote(n);
    MentionsThenPlain(b, " FOREIGN KEY (", [n]);
    MentionsThenPlain(b + " FOREIGN KEY (", r.columnName, [n]);
    MentionsThenPlain(b + " FOREIGN KEY (" + r.columnName, ")", [n]);
    MentionsThenPlain(b + " FOREIGN KEY (" + r.columnName + ")", ReferenceTarget(r), [n]);
  }

  /** Parts that each backquote one name, joined by a plain separator,
      backquote those names in order. */
  lemma {:induction false} JoinMentions(parts: seq<string>, sep: string, ns: seq<string>)
    requires |parts| == |ns| > 0 && Plain(sep)
    requires forall i :: 0 <= i < |parts| ==> Mentions(parts[i], [ns[i]])
    ensures Mentions(Join(parts, sep), ns)
    decreases |parts|
  {
    if |parts| == 1 {
      assert ns == [ns[0]];
    } else {
      JoinMentions(parts[1..], sep, ns[1..]);
      MentionsThenPlain(parts[0], sep, [ns[0]]);
      MentionsAppend(parts[0] + sep, Join(parts[1..], sep), [ns[0]], ns[1..]);
      assert [ns[0]] + ns[1..] == ns;
    }
  }

  lemma ForeignKeyJoinMentions(refs: seq<Reference>)
    requires |refs| > 0 && PlainReferences(refs)
    ensures Mentions(Join(ForeignKeyClauses(refs), ","), ForeignKeyNames(refs))
  {
    var parts := ForeignKeyClauses(refs);
    var ns := ForeignKeyNames(refs);
    forall i | 0 <= i < |parts|
      ensures Mentions(parts[i], [ns[i]])
    {
      assert refs[i] in refs;
      ForeignKeyClauseMentions(refs[i]);
    }
    CreateLiterals();
    JoinMentions(parts, ",", ns);
  }

  lemma ForeignKeySectionMentions(refs: seq<Reference>)
    requires PlainReferences(refs)
    ensures Mentions(ForeignKeySection(refs), ForeignKeyNames(refs))
  {
    if |refs| > 0 {
      CreateLiterals();
      MentionsPlain(",");
      ForeignKeyJoinMentions(refs);
      MentionsAppend(",", Join(ForeignKeyClauses(refs), ","), [], ForeignKeyNames(refs));
      assert [] + ForeignKeyNames(refs) == ForeignKeyNames(refs);
    } else {
      MentionsPlain("");
    }
  }

  /** `CREATE TABLE` names one unique constraint per index entry, then one
      foreign key per reference, and nothing else. */
  lemma CreateTableMentions(t: Table)
    requires PlainTable(t)
    ensures Mentions(CreateTableText(t), UniqueNames(t.uniqueIndexes) + ForeignKeyNames(t.references))
  {
    var un := UniqueNames(t.uniqueIndexes);
    var fn := ForeignKeyNames(t.references);
    CreateLiterals();
    Plain3("CREATE TABLE ", t.name, " (\n");
    ColumnsPlain(t.columns);
    PrimaryKeyClausePlain(t);
    var cols := Join(ColumnClauses(t.columns), ",\n");
    Plain3(CreateTableHeader(t), cols, PrimaryKeyClause(t));
    var a := CreateTableHeader(t) + cols + PrimaryKeyClause(t);
    MentionsPlain(a);
    UniqueClausesMentions(t.uniqueIndexes);
    MentionsAppend(a, UniqueClauses(t.uniqueIndexes), [], un);
    assert [] + un == un;
    ForeignKeySectionMentions(t.references);
    MentionsAppend(a + UniqueClauses(t.uniqueIndexes), ForeignKeySection(t.references), un, fn);
    MentionsThenPlain(a + UniqueClauses(t.uniqueIndexes) + ForeignKeySection(t.references), "\n);\n", un + fn);
    var e := TableElements(t);
    calc {
      CreateTableText(t);
      CreateTableHeader(t) + e + "\n);\n";
      { Regroup4(CreateTableHeader(t), cols, PrimaryKeyClause(t), UniqueClauses(t.uniqueIndexes),
                 ForeignKeySection(t.references)); }
      a + UniqueClauses(t.uniqueIndexes) + ForeignKeySection(t.references) + "\n);\n";
    }
  }

  lemma Regroup4(h: string, a: string, b: string, c: string, d: string)
    ensures h + (a + b + c + d) == h + a + b + c + d
  {
  }

  // ---------------------------------------------------------------------------
  // Frames

  /** An `ALTER TABLE` statement on `name`, ended by a semicolon and a newline. */
  predicate AlterStatement(q: string, name: string) {
    HasPrefix(q, AlterTable(name)) && HasSuffix(q, ";\n")
  }

  lemma PrefixThen2(s: string, p: string, x: string, y: string)
    requires HasPrefix(s, p)
    ensures HasPrefix(s + x + y, p)
  {
    PrefixThen(s, p, x);
    PrefixThen(s + x, p, y);
  }

  lemma DropColumnFrame(t: Table, c: Column)
    requires !c.primaryKey
    ensures AlterStatement(DropColumnQuery(t, c), t.name)
  {
    var a := AlterTable(t.name);
    PrefixThen2(a, a, "DROP COLUMN ", c.name);
    PrefixThen(a + "DROP COLUMN " + c.name, a, ";\n");
    SuffixOfAppend(a + "DROP COLUMN " + c.name, ";\n");
  }

  lemma RenameColumnFrame(t: Table, newColumn: Column, oldColumn: Column)
    ensures AlterStatement(RenameColumnQuery(t, newColumn, oldColumn), t.name)
  {
    var a := AlterTable(t.name);
    PrefixThen2(a, a, "RENAME COLUMN ", oldColumn.name);
    PrefixThen2(a + "RENAME COLUMN " + oldColumn.name, a, " TO ", newColumn.name);
    var b := a + "RENAME COLUMN " + oldColumn.name + " TO " + newColumn.name;
    PrefixThen(b, a, ";\n");
    SuffixOfAppend(b, ";\n");
  }

  lemma ModifyColumnFrame(t: Table, c: Column)
    ensures AlterStatement(ModifyColumnQuery(t, c), t.name)
  {
    var a := AlterTable(t.name);
    PrefixThen2(a, a, "MODIFY COLUMN ", c.name);
    PrefixThen2(a + "MODIFY COLUMN " + c.name, a, " ", ToUpper(c.columnType));
    var b := a + "MODIFY COLUMN " + c.name + " " + ToUpper(c.columnType);
    PrefixThen2(b, a, Attributes(ModifyAttributes(c)), ";\n");
    SuffixOfAppend(b + Attributes(ModifyAttributes(c)), ";\n");
  }

  lemma AddColumnFrame(t: Table, c: Column)
    ensures AlterStatement(AddColumnQuery(t, c), t.name)
  {
    var a := AlterTable(t.name);
    PrefixThen2(a, a, "ADD COLUMN ", c.name);
    PrefixThen2(a + "ADD COLUMN " + c.name, a, " ", ToUpper(c.columnType));
    var b := a + "ADD COLUMN " + c.name + " " + ToUpper(c.columnType);
    PrefixThen2(b, a, Attributes(AddAttributes(c)), InlineUnique(t, c));
    PrefixThen(b + Attributes(AddAttributes(c)) + InlineUnique(t, c), a, ";\n");
    SuffixOfAppend(b + Attributes(AddAttributes(c)) + InlineUnique(t, c), ";\n");
  }

  lemma AddReferenceFrame(r: Reference)
    ensures AlterStatement(AddReferenceQuery(r), r.tableName)
  {
    var a := AlterTable(r.tableName);
    PrefixThen2(a, a, "ADD CONSTRAINT ", Quote(ForeignKeyName(r)));
    var b := a + "ADD CONSTRAINT " + Quote(ForeignKeyName(r));
    PrefixThen2(b, a, " FOREIGN KEY (", r.columnName);
    PrefixThen2(b + " FOREIGN KEY (" + r.columnName, a, ")", ReferenceTarget(r));
    var c := b + " FOREIGN KEY (" + r.columnName + ")" + ReferenceTarget(r);
    PrefixThen(c, a, ";\n");
    SuffixOfAppend(c, ";\n");
  }

  lemma DropReferenceFrame(r: Reference)
    ensures AlterStatement(DropReferenceQuery(r), r.tableName)
  {
    var a := AlterTable(r.tableName);
    var n := Quote(ForeignKeyName(r));
    PrefixThen2(a, a, "DROP CONSTRAINT ", n);
    PrefixThen2(a + "DROP CONSTRAINT " + n, a, ",\n\t", "DROP INDEX ");
    var b := a + "DROP CONSTRAINT " + n + ",\n\t" + "DROP INDEX ";
    PrefixThen2(b, a, n, ";\n");
    SuffixOfAppend(b + n, ";\n");
  }

  lemma AddUniqueIndexFrame(t: Table, indexName: string, colNames: seq<string>)
    ensures AlterStatement(AddUniqueIndexText(t, indexName, colNames), t.name)
  {
    var a := AlterTable(t.name);
    PrefixThen2(a, a, "ADD CONSTRAINT ", Quote(UniqueName(indexName)));
    var b := a + "ADD CONSTRAINT " + Quote(UniqueName(indexName));
    PrefixThen2(b, a, " UNIQUE (", Join(colNames, ", "));
    var c := b + " UNIQUE (" + Join(colNames, ", ");
    PrefixThen(c, a, ");\n");
    assert (c + ");\n")[|c| + 1..] == ";\n";
  }

  /** `CREATE TABLE` opens with the table's name and closes its parenthesis. */
  lemma CreateTableFrame(t: Table)
    ensures HasPrefix(CreateTableText(t), "CREATE TABLE " + t.name + " (\n")
    ensures HasSuffix(CreateTableText(t), "\n);\n")
  {
    var h := CreateTableHeader(t);
    PrefixThen2(h, h, TableElements(t), "\n);\n");
    SuffixOfAppend(h + TableElements(t), "\n);\n");
  }

  // ---------------------------------------------------------------------------
  // What the text determines

  /** The table name is what lies between the fixed opening and the final
      semicolon, so different tables have different `DROP TABLE` statements. */
  lemma DropTableName(t: Table)
    ensures var q := DropTableQuery(t); |q| == |t.name| + 23 && q[21..|q| - 2] == t.name
  {
    var q := DropTableQuery(t);
    assert q == "DROP TABLE IF EXISTS " + t.name + ";\n";
    assert |"DROP TABLE IF EXISTS "| == 21;
    assert q[21..|q| - 2] == t.name;
  }

  lemma DropTableInjective(t1: Table, t2: Table)
    requires DropTableQuery(t1) == DropTableQuery(t2)
    ensures t1.name == t2.name
  {
    DropTableName(t1);
    DropTableName(t2);
  }

  lemma NoticeOpens(t: Table, indexName: string, colNames: seq<string>)
    requires |colNames| > 0
    ensures HasPrefix(DropUniqueIndexText(t, indexName, colNames), RemovalNotice)
  {
    var rs := ReferencesFor(t.references, colNames);
    var n := RemovalNotice;
    var u := Quote(UniqueName(indexName));
    PrefixThen2(n, n, Statements(rs, DropReferenceQuery), AlterTable(t.name));
    var a := n + Statements(rs, DropReferenceQuery) + AlterTable(t.name);
    PrefixThen2(a, n, "DROP CONSTRAINT ", u);
    PrefixThen2(a + "DROP CONSTRAINT " + u, n, ";\n", Statements(rs, AddReferenceQuery));
  }

  lemma AlterOpens(t: Table, indexName: string)
    ensures var q := DropUniqueIndexText(t, indexName, []); |q| > 0 && q[0] == 'A'
  {
    var a := AlterTable(t.name);
    var u := Quote(UniqueName(indexName));
    assert ReferencesFor(t.references, []) == [];
    assert DropUniqueIndexText(t, indexName, []) == "" + "" + a + "DROP CONSTRAINT " + u + ";\n" + "";
    assert ("" + "" + a + "DROP CONSTRAINT " + u + ";\n" + "")[0] == a[0];
  }

  /** The notice opens the statements exactly when the index has columns. */
  lemma DropUniqueIndexNotice(t: Table, indexName: string, colNames: seq<string>)
    ensures HasPrefix(DropUniqueIndexText(t, indexName, colNames), RemovalNotice) <==> |colNames| > 0
  {
    if |colNames| > 0 {
      NoticeOpens(t, indexName, colNames);
    } else {
      assert colNames == [];
      AlterOpens(t, indexName);
      assert RemovalNotice[0] == '\n';
    }
  }

  /** Every column with a reference contributes the first reference starting
      at it. */
  lemma {:induction false} ReferencesForComplete(refs: seq<Reference>, colNames: seq<string>, j: nat)
    requires j < |colNames| && ReferenceIndex(refs, colNames[j]) >= 0
    ensures refs[ReferenceIndex(refs, colNames[j])] in ReferencesFor(refs, colNames)
    decreases |colNames|
  {
    var n := |colNames| - 1;
    if j < n {
      assert colNames[..n][j] == colNames[j];
      ReferencesForComplete(refs, colNames[..n], j);
    }
  }
}
