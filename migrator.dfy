/**
  The orchestrator: the tables of the database and the desired tables are
  split by name into new, deleted and altered ones, and two scripts are
  written, one that brings the database to the desired schema (up) and one
  that brings it back (down).  The database's tables are a parameter: reading
  them is not part of this model.
 */
module Migrator {
  import opened Strings
  import opened Schema
  import opened SchemaSort
  import opened SchemaFacts
  import opened Quoting
  import opened Query
  import opened QueryFacts

  // ---------------------------------------------------------------------------
  // Splitting the tables by name

  /** `slices.ContainsFunc` with a name test. */
  predicate HasName(tables: seq<Table>, name: string) {
    exists t :: t in tables && t.name == name
  }

  /** The tables of `xs`, in order, whose name no table of `ys` has: the new
      tables when `xs` is the desired schema, the deleted ones when it is the
      database's. */
  function Unmatched(xs: seq<Table>, ys: seq<Table>): (ts: seq<Table>)
    ensures forall t :: t in ts <==> t in xs && !HasName(ys, t.name)
    decreases |xs|
  {
    if xs == [] then []
    else
      var t := xs[|xs| - 1];
      Unmatched(xs[..|xs| - 1], ys) + (if HasName(ys, t.name) then [] else [t])
  }

  /** The names of the desired tables that the database also has, in the
      order of the desired tables. */
  function AlteredOrder(dst: seq<Table>, db: seq<Table>): (names: seq<string>)
    ensures forall n :: n in names <==> HasName(dst, n) && HasName(db, n)
    decreases |dst|
  {
    if dst == [] then []
    else
      var t := dst[|dst| - 1];
      AlteredOrder(dst[..|dst| - 1], db) + (if HasName(db, t.name) then [t.name] else [])
  }

  /** `t` is the last table of `xs` with the name `n`. */
  predicate LastOfName(xs: seq<Table>, n: string, t: Table) {
    exists j :: 0 <= j < |xs| && xs[j] == t && forall k :: j < k < |xs| ==> xs[k].name != n
  }

  lemma LastOfNameHere(xs: seq<Table>)
    requires xs != []
    ensures LastOfName(xs, xs[|xs| - 1].name, xs[|xs| - 1])
  {
    var j := |xs| - 1;
    assert xs[j] == xs[|xs| - 1];
  }

  /** A table that was last under a name before stays last after a table of another name. */
  lemma LastOfNameExtend(xs: seq<Table>, m: map<string, Table>)
    requires xs != []
    requires forall n :: n in m ==> LastOfName(xs[..|xs| - 1], n, m[n])
    ensures forall n :: n in m && n != xs[|xs| - 1].name ==> LastOfName(xs, n, m[n])
  {
    var front := xs[..|xs| - 1];
    forall n | n in m && n != xs[|xs| - 1].name
      ensures LastOfName(xs, n, m[n])
    {
      var j :| 0 <= j < |front| && front[j] == m[n] && forall k :: j < k < |front| ==> front[k].name != n;
      assert xs[j] == m[n];
      forall k | j < k < |xs|
        ensures xs[k].name != n
      {
        if k < |front| {
          assert xs[k] == front[k];
        }
      }
    }
  }

  /** The table assigned under each name of `xs` that `ys` also has; a later
      table of the same name replaces an earlier one. */
  function LastByName(xs: seq<Table>, ys: seq<Table>): (m: map<string, Table>)
    ensures forall n :: n in m <==> HasName(xs, n) && HasName(ys, n)
    ensures forall n :: n in m ==> m[n] in xs && m[n].name == n
    ensures forall n :: n in m ==> LastOfName(xs, n, m[n])
    decreases |xs|
  {
    if xs == [] then map[]
    else
      var t := xs[|xs| - 1];
      var m := LastByName(xs[..|xs| - 1], ys);
      assert forall u :: u in xs[..|xs| - 1] ==> u in xs;
      LastOfNameHere(xs);
      LastOfNameExtend(xs, m);
      if HasName(ys, t.name) then m[t.name := t] else m
  }

  /** `schema.TablePair`: the database's table and the desired one. */
  datatype TablePair = TablePair(first: Table, second: Table)

  /** The altered tables, paired, in the order of the desired tables. */
  function AlteredPairs(dst: seq<Table>, db: seq<Table>): (ps: seq<TablePair>)
    ensures var order := AlteredOrder(dst, db);
      |ps| == |order| &&
      forall i :: 0 <= i < |ps| ==>
        order[i] in LastByName(db, dst) && order[i] in LastByName(dst, db) &&
        ps[i] == TablePair(LastByName(db, dst)[order[i]], LastByName(dst, db)[order[i]])
  {
    var order := AlteredOrder(dst, db);
    var firsts := LastByName(db, dst);
    var seconds := LastByName(dst, db);
    AlteredNamesPaired(dst, db);
    seq(|order|, i requires 0 <= i < |order| => TablePair(firsts[order[i]], seconds[order[i]]))
  }

  /** Every altered name has a table on both sides. */
  lemma AlteredNamesPaired(dst: seq<Table>, db: seq<Table>)
    ensures var order := AlteredOrder(dst, db);
      forall i :: 0 <= i < |order| ==> order[i] in LastByName(db, dst) && order[i] in LastByName(dst, db)
  {
    var order := AlteredOrder(dst, db);
    forall i | 0 <= i < |order|
      ensures order[i] in LastByName(db, dst) && order[i] in LastByName(dst, db)
    {
      assert order[i] in order;
    }
  }

  /** Both directions of the comparison can read the primary keys they need. */
  predicate PairsComparable(ps: seq<TablePair>) {
    forall p :: p in ps ==> Comparable(p.first, p.second) && Comparable(p.second, p.first)
  }

  // ---------------------------------------------------------------------------
  // Rendering migrations

  /** No migration drops a primary key column, which `DropColumnQuery` refuses. */
  predicate NoKeyDrops(ms: seq<Migration>) {
    forall m :: m in ms && m.DropColumn? ==> !m.column.primaryKey
  }

  /** The statements of one migration, against the table it applies to. */
  function MigrationText(table: Table, m: Migration): string
    requires m.DropColumn? ==> !m.column.primaryKey
  {
    match m
    case AddColumn(c) => AddColumnQuery(table, c)
    case DropColumn(c) => DropColumnQuery(table, c)
    case ModifyColumn(n, _) => ModifyColumnQuery(table, n)
    case RenameColumn(n, o) => RenameColumnQuery(table, n, o)
    case AddForeignKey(r) => AddReferenceQuery(r)
    case DropForeignKey(r) => DropReferenceQuery(r)
    case UpdateForeignKey(n, o) => DropReferenceQuery(o) + AddReferenceQuery(n)
    case AddUniqueIndex(name, cols) => AddUniqueIndexText(table, name, cols)
    case DropUniqueIndex(name, cols) => DropUniqueIndexText(table, name, cols)
  }

  /** One rendering per migration, in the order of the list. */
  function MigrationsText(table: Table, ms: seq<Migration>): string
    requires NoKeyDrops(ms)
    decreases |ms|
  {
    if ms == [] then ""
    else
      assert ms[|ms| - 1] in ms;
      assert forall m :: m in ms[..|ms| - 1] ==> m in ms;
      MigrationsText(table, ms[..|ms| - 1]) + MigrationText(table, ms[|ms| - 1])
  }

  /** Sorting keeps the migrations, so a sorted comparison drops no key column. */
  lemma SortedDiffDropsNoKey(t: Table, dst: Table)
    requires Comparable(t, dst)
    ensures NoKeyDrops(PrioritySorted(Diff(t, dst)))
  {
    DiffDropsNoPrimaryKey(t, dst);
    PrioritySortedIsPermutation(Diff(t, dst));
    forall m | m in PrioritySorted(Diff(t, dst))
      ensures m in Diff(t, dst)
    {
      assert m in multiset(PrioritySorted(Diff(t, dst)));
    }
  }

  /** The statements of one altered table in the up script (rendered against
      the database's table) or in the down script (against the desired table). */
  function PairText(p: TablePair, up: bool): string
    requires Comparable(p.first, p.second) && Comparable(p.second, p.first)
  {
    if up then
      SortedDiffDropsNoKey(p.first, p.second);
      MigrationsText(p.first, PrioritySorted(Diff(p.first, p.second)))
    else
      SortedDiffDropsNoKey(p.second, p.first);
      MigrationsText(p.second, PrioritySorted(Diff(p.second, p.first)))
  }

  function AlteredText(ps: seq<TablePair>, up: bool): string
    requires PairsComparable(ps)
    decreases |ps|
  {
    if ps == [] then ""
    else
      assert ps[|ps| - 1] in ps;
      assert forall p :: p in ps[..|ps| - 1] ==> p in ps;
      AlteredText(ps[..|ps| - 1], up) + PairText(ps[|ps| - 1], up)
  }

  /** `CREATE TABLE` for each table, in order. */
  function CreateTexts(ts: seq<Table>): string
    decreases |ts|
  {
    if ts == [] then "" else CreateTexts(ts[..|ts| - 1]) + CreateTableText(ts[|ts| - 1])
  }

  /** `DROP TABLE` for each table, from the last to the first. */
  function DropsBackward(ts: seq<Table>): string
    decreases |ts|
  {
    if ts == [] then "" else DropsBackward(ts[1..]) + DropTableQuery(ts[0])
  }

  /** The up script: the new tables created in desired order, the altered
      tables changed, the deleted tables dropped in reverse database order. */
  function UpScript(dst: seq<Table>, db: seq<Table>): string
    requires PairsComparable(AlteredPairs(dst, db))
  {
    CreateTexts(Unmatched(dst, db)) + AlteredText(AlteredPairs(dst, db), true) + DropsBackward(Unmatched(db, dst))
  }

  /** The down script: the deleted tables created again in database order,
      the altered tables changed back, the new tables dropped in reverse
      desired order. */
  function DownScript(dst: seq<Table>, db: seq<Table>): string
    requires PairsComparable(AlteredPairs(dst, db))
  {
    CreateTexts(Unmatched(db, dst)) + AlteredText(AlteredPairs(dst, db), false) + DropsBackward(Unmatched(dst, db))
  }

  // ---------------------------------------------------------------------------
  // The loops

  /** The rendering of one migration: the `switch` of `createColumnMigrations`. */
  method WriteColumnMigration(sb: string, table: Table, m: Migration) returns (out: string)
    requires m.DropColumn? ==> !m.column.primaryKey
    ensures out == sb + MigrationText(table, m)
  {
    match m {
      case AddColumn(c) =>
        out := sb + AddColumnQuery(table, c);
      case DropColumn(c) =>
        out := sb + DropColumnQuery(table, c);
      case ModifyColumn(n, _) =>
        out := sb + ModifyColumnQuery(table, n);
      case RenameColumn(n, o) =>
        out := sb + RenameColumnQuery(table, n, o);
      case AddForeignKey(r) =>
        out := sb + AddReferenceQuery(r);
      case DropForeignKey(r) =>
        out := sb + DropReferenceQuery(r);
      case UpdateForeignKey(n, o) =>
        out := sb + DropReferenceQuery(o);
        out := out + AddReferenceQuery(n);
        AppendAssoc(sb, DropReferenceQuery(o), AddReferenceQuery(n));
      case AddUniqueIndex(name, cols) =>
        var q := AddUniqueIndexQuery(table, name, cols);
        out := sb + q;
      case DropUniqueIndex(name, cols) =>
        var q := DropUniqueIndexQuery(table, name, cols);
        out := sb + q;
    }
  }

  /** `createColumnMigrations`: the rendering of each migration, in order,
      appended to the builder. */
  method WriteColumnMigrations(sb: string, migrations: seq<Migration>, table: Table) returns (out: string)
    requires NoKeyDrops(migrations)
    ensures out == sb + MigrationsText(table, migrations)
  {
    out := sb;
    var i := 0;
    while i < |migrations|
      invariant 0 <= i <= |migrations|
      invariant out == sb + MigrationsText(table, migrations[..i])
    {
      assert migrations[i] in migrations;
      assert migrations[..i + 1][..i] == migrations[..i];
      AppendAssoc(sb, MigrationsText(table, migrations[..i]), MigrationText(table, migrations[i]));
      out := WriteColumnMigration(out, table, migrations[i]);
      i := i + 1;
    }
    assert migrations[..|migrations|] == migrations;
  }

  /** The loop that creates each table of `ts`, in order. */
  method WriteCreates(sb: string, ts: seq<Table>) returns (out: string)
    ensures out == sb + CreateTexts(ts)
  {
    out := sb;
    var i := 0;
    while i < |ts|
      invariant 0 <= i <= |ts|
      invariant out == sb + CreateTexts(ts[..i])
    {
      assert ts[..i + 1][..i] == ts[..i];
      AppendAssoc(sb, CreateTexts(ts[..i]), CreateTableText(ts[i]));
      var q := CreateTableQuery(ts[i]);
      out := out + q;
      i := i + 1;
    }
    assert ts[..|ts|] == ts;
  }

  /** The loop that drops each table of `ts`, from the last to the first. */
  method WriteDropsBackward(sb: string, ts: seq<Table>) returns (out: string)
    ensures out == sb + DropsBackward(ts)
  {
    out := sb;
    var i := |ts|;
    assert ts[|ts|..] == [];
    while i > 0
      invariant 0 <= i <= |ts|
      invariant out == sb + DropsBackward(ts[i..])
    {
      i := i - 1;
      assert ts[i..][1..] == ts[i + 1..];
      AppendAssoc(sb, DropsBackward(ts[i + 1..]), DropTableQuery(ts[i]));
      out := out + DropTableQuery(ts[i]);
    }
    assert ts[0..] == ts;
  }

  /** A copy of the list in an array, sorted in place. */
  method SortMigrations(ms: seq<Migration>) returns (sorted: seq<Migration>)
    ensures sorted == PrioritySorted(ms)
  {
    var a := new Migration[|ms|](i requires 0 <= i < |ms| => ms[i]);
    assert a[..] == ms;
    SortMigrationsByOperationPriority(a);
    sorted := a[..];
  }

  /** One altered table: compared both ways, each list of migrations sorted
      and rendered into its script. */
  method WritePair(sbUp: string, sbDown: string, first: Table, second: Table) returns (up: string, down: string)
    requires Comparable(first, second) && Comparable(second, first)
    ensures up == sbUp + PairText(TablePair(first, second), true)
    ensures down == sbDown + PairText(TablePair(first, second), false)
  {
    var upMigrations := CompareWith(first, second);
    var downMigrations := CompareWith(second, first);
    upMigrations := SortMigrations(upMigrations);
    downMigrations := SortMigrations(downMigrations);
    SortedDiffDropsNoKey(first, second);
    SortedDiffDropsNoKey(second, first);
    up := WriteColumnMigrations(sbUp, upMigrations, first);
    down := WriteColumnMigrations(sbDown, downMigrations, second);
  }

  /** The loop over the altered tables, in desired order: each pair written
      into both scripts. */
  method WriteAltered(sbUp: string, sbDown: string, order: seq<string>,
                      firsts: map<string, Table>, seconds: map<string, Table>, ghost ps: seq<TablePair>)
    returns (up: string, down: string)
    requires |ps| == |order| && PairsComparable(ps)
    requires forall i :: 0 <= i < |order| ==>
               order[i] in firsts && order[i] in seconds && ps[i] == TablePair(firsts[order[i]], seconds[order[i]])
    ensures up == sbUp + AlteredText(ps, true) && down == sbDown + AlteredText(ps, false)
  {
    up, down := sbUp, sbDown;
    var k := 0;
    while k < |order|
      invariant 0 <= k <= |order|
      invariant up == sbUp + AlteredText(ps[..k], true)
      invariant down == sbDown + AlteredText(ps[..k], false)
    {
      assert ps[k] in ps;
      assert ps[..k + 1][..k] == ps[..k];
      AppendAssoc(sbUp, AlteredText(ps[..k], true), PairText(ps[k], true));
      AppendAssoc(sbDown, AlteredText(ps[..k], false), PairText(ps[k], false));
      up, down := WritePair(up, down, firsts[order[k]], seconds[order[k]]);
      k := k + 1;
    }
    assert ps[..|ps|] == ps;
  }

  /** The loop over the desired tables: a table the database lacks is new,
      any other is recorded as the second of its pair, its name appended to
      the order of the altered tables. */
  method SplitDesired(dst: seq<Table>, dbTables: seq<Table>)
    returns (newTables: seq<Table>, seconds: map<string, Table>, order: seq<string>)
    ensures newTables == Unmatched(dst, dbTables)
    ensures seconds == LastByName(dst, dbTables)
    ensures order == AlteredOrder(dst, dbTables)
  {
    newTables, seconds, order := [], map[], [];
    var i := 0;
    while i < |dst|
      invariant 0 <= i <= |dst|
      invariant newTables == Unmatched(dst[..i], dbTables)
      invariant seconds == LastByName(dst[..i], dbTables)
      invariant order == AlteredOrder(dst[..i], dbTables)
    {
      assert dst[..i + 1][..i] == dst[..i];
      if !HasName(dbTables, dst[i].name) {
        newTables := newTables + [dst[i]];
      } else {
        seconds := seconds[dst[i].name := dst[i]];
        order := order + [dst[i].name];
      }
      i := i + 1;
    }
    assert dst[..|dst|] == dst;
  }

  /** The loop over the database's tables: a table the desired schema lacks
      is deleted, any other becomes the first of its pair. */
  method SplitDatabase(dbTables: seq<Table>, dst: seq<Table>)
    returns (deletedTables: seq<Table>, firsts: map<string, Table>)
    ensures deletedTables == Unmatched(dbTables, dst)
    ensures firsts == LastByName(dbTables, dst)
  {
    deletedTables, firsts := [], map[];
    var j := 0;
    while j < |dbTables|
      invariant 0 <= j <= |dbTables|
      invariant deletedTables == Unmatched(dbTables[..j], dst)
      invariant firsts == LastByName(dbTables[..j], dst)
    {
      assert dbTables[..j + 1][..j] == dbTables[..j];
      if !HasName(dst, dbTables[j].name) {
        deletedTables := deletedTables + [dbTables[j]];
      } else {
        firsts := firsts[dbTables[j].name := dbTables[j]];
      }
      j := j + 1;
    }
    assert dbTables[..|dbTables|] == dbTables;
  }

  /** `CreateMigration`: the up and the down script that move between the
      database's tables `dbTables` and the desired tables `dst`. */
  method CreateMigration(dst: seq<Table>, dbTables: seq<Table>) returns (up: string, down: string)
    requires PairsComparable(AlteredPairs(dst, dbTables))
    ensures up == UpScript(dst, dbTables) && down == DownScript(dst, dbTables)
  {
    var newTables, seconds, order := SplitDesired(dst, dbTables);
    var deletedTables, firsts := SplitDatabase(dbTables, dst);
    ghost var ps := AlteredPairs(dst, dbTables);
    up := WriteCreates("", newTables);
    down := WriteCreates("", deletedTables);
    var upAltered, downAltered := WriteAltered(up, down, order, firsts, seconds, ps);
    down := WriteDropsBackward(downAltered, newTables);
    up := WriteDropsBackward(upAltered, deletedTables);
    assert "" + CreateTexts(newTables) == CreateTexts(newTables);
    assert "" + CreateTexts(deletedTables) == CreateTexts(deletedTables);
  }

  // ---------------------------------------------------------------------------
  // Properties of the scripts

  /** Each pair joins a database table and a desired table of the same name. */
  lemma PairsFromBothSides(dst: seq<Table>, db: seq<Table>, i: nat)
    requires i < |AlteredPairs(dst, db)|
    ensures var p := AlteredPairs(dst, db)[i];
      p.first in db && p.second in dst && p.first.name == p.second.name == AlteredOrder(dst, db)[i]
  {
  }

  lemma MigrationsTextSnoc(table: Table, ms: seq<Migration>, m: Migration)
    requires NoKeyDrops(ms + [m])
    ensures NoKeyDrops(ms)
    ensures MigrationsText(table, ms + [m]) == MigrationsText(table, ms) + MigrationText(table, m)
  {
    assert (ms + [m])[..|ms|] == ms;
    assert forall x :: x in ms ==> x in ms + [m];
  }

  /** The renderings of a concatenation are the renderings of its parts. */
  lemma {:induction false} MigrationsTextAppend(table: Table, a: seq<Migration>, b: seq<Migration>)
    requires NoKeyDrops(a) && NoKeyDrops(b)
    ensures NoKeyDrops(a + b)
    ensures MigrationsText(table, a + b) == MigrationsText(table, a) + MigrationsText(table, b)
    decreases |b|
  {
    if b == [] {
      assert a + b == a;
      AppendEmpty(MigrationsText(table, a));
    } else {
      var n := |b| - 1;
      assert b == b[..n] + [b[n]];
      assert a + b == (a + b[..n]) + [b[n]];
      assert forall m :: m in b[..n] ==> m in b;
      MigrationsTextAppend(table, a, b[..n]);
      MigrationsTextSnoc(table, a + b[..n], b[n]);
      MigrationsTextSnoc(table, b[..n], b[n]);
      AppendAssoc(MigrationsText(table, a), MigrationsText(table, b[..n]), MigrationText(table, b[n]));
    }
  }

  lemma CreateTextsSnoc(ts: seq<Table>, t: Table)
    ensures CreateTexts(ts + [t]) == CreateTexts(ts) + CreateTableText(t)
  {
    assert (ts + [t])[..|ts|] == ts;
  }

  lemma {:induction false} CreateTextsAppend(a: seq<Table>, b: seq<Table>)
    ensures CreateTexts(a + b) == CreateTexts(a) + CreateTexts(b)
    decreases |b|
  {
    if b == [] {
      assert a + b == a;
      AppendEmpty(CreateTexts(a));
    } else {
      var n := |b| - 1;
      assert b == b[..n] + [b[n]];
      assert a + b == (a + b[..n]) + [b[n]];
      CreateTextsSnoc(a + b[..n], b[n]);
      CreateTextsSnoc(b[..n], b[n]);
      CreateTextsAppend(a, b[..n]);
      AppendAssoc(CreateTexts(a), CreateTexts(b[..n]), CreateTableText(b[n]));
    }
  }

  /** Dropping a concatenation drops the second part first. */
  lemma {:induction false} DropsBackwardAppend(a: seq<Table>, b: seq<Table>)
    ensures DropsBackward(a + b) == DropsBackward(b) + DropsBackward(a)
    decreases |a|
  {
    if a == [] {
      assert a + b == b;
    } else {
      assert (a + b)[0] == a[0];
      assert (a + b)[1..] == a[1..] + b;
      DropsBackwardAppend(a[1..], b);
      AppendAssoc(DropsBackward(b), DropsBackward(a[1..]), DropTableQuery(a[0]));
    }
  }

  lemma {:induction false} NoDifferencesNoText(ps: seq<TablePair>, up: bool)
    requires PairsComparable(ps)
    requires forall p :: p in ps ==> Diff(p.first, p.second) == [] && Diff(p.second, p.first) == []
    ensures AlteredText(ps, up) == ""
    decreases |ps|
  {
    if ps != [] {
      var n := |ps| - 1;
      assert forall p :: p in ps[..n] ==> p in ps;
      NoDifferencesNoText(ps[..n], up);
      assert ps[n] in ps;
      EmptyGroups(0);
    }
  }

  /** With no new and no deleted table and no difference in either direction
      between the tables of a pair, both scripts are empty: an empty up script
      is how the lack of a migration shows. */
  lemma NoDifferencesNoScripts(dst: seq<Table>, db: seq<Table>)
    requires PairsComparable(AlteredPairs(dst, db))
    requires Unmatched(dst, db) == [] && Unmatched(db, dst) == []
    requires forall p :: p in AlteredPairs(dst, db) ==> Diff(p.first, p.second) == [] && Diff(p.second, p.first) == []
    ensures UpScript(dst, db) == "" && DownScript(dst, db) == ""
  {
    NoDifferencesNoText(AlteredPairs(dst, db), true);
    NoDifferencesNoText(AlteredPairs(dst, db), false);
  }

  /** Compared with itself, each altered pair holds one table twice. */
  lemma SelfPairs(ts: seq<Table>)
    ensures forall p :: p in AlteredPairs(ts, ts) ==> p.first == p.second && p.first in ts
  {
    var ps := AlteredPairs(ts, ts);
    forall i | 0 <= i < |ps|
      ensures ps[i].first == ps[i].second && ps[i].first in ts
    {
    }
  }

  lemma NothingUnmatched(ts: seq<Table>)
    ensures Unmatched(ts, ts) == []
  {
    forall t | t in ts
      ensures HasName(ts, t.name)
    {
    }
    if Unmatched(ts, ts) != [] {
      assert Unmatched(ts, ts)[0] in Unmatched(ts, ts);
    }
  }

  /** A well-formed schema compared with itself needs no migration at all. */
  lemma UnchangedSchema(ts: seq<Table>)
    requires forall t :: t in ts ==>
      DistinctColumnNames(t) && NonEmptyColumnNames(t) && DistinctRelations(t) && DistinctIndexNames(t)
    ensures PairsComparable(AlteredPairs(ts, ts))
    ensures UpScript(ts, ts) == "" && DownScript(ts, ts) == ""
  {
    SelfPairs(ts);
    forall p | p in AlteredPairs(ts, ts)
      ensures Comparable(p.first, p.second) && Diff(p.first, p.second) == []
    {
      CompareWithItself(p.first);
    }
    NothingUnmatched(ts);
    NoDifferencesNoScripts(ts, ts);
  }

  /** The constraint an update replaces has the name of its replacement. */
  lemma UpdateKeepsKeyName(t: Table, dst: Table, r: Reference, previous: Reference)
    requires Comparable(t, dst)
    requires UpdateForeignKey(r, previous) in Diff(t, dst)
    ensures ForeignKeyName(previous) == ForeignKeyName(r)
  {
    DiffForeignKeys(t, dst, r, previous);
  }

  lemma DropThenAddMentions(r: Reference, previous: Reference)
    requires PlainReference(r) && PlainReference(previous)
    requires ForeignKeyName(previous) == ForeignKeyName(r)
    ensures var fk := ForeignKeyName(r);
      Mentions(DropReferenceQuery(previous) + AddReferenceQuery(r), [fk, fk, fk])
  {
    var fk := ForeignKeyName(r);
    DropReferenceMentions(previous);
    AddReferenceMentions(r);
    MentionsAppend(DropReferenceQuery(previous), AddReferenceQuery(r), [fk, fk], [fk]);
  }

  /** A changed referential action is rendered by dropping the foreign key's
      constraint and index and adding a constraint of the very same name. */
  lemma UpdateRecreatesSameKey(t: Table, dst: Table, r: Reference, previous: Reference)
    requires Comparable(t, dst)
    requires UpdateForeignKey(r, previous) in Diff(t, dst)
    requires PlainReference(r) && PlainReference(previous)
    ensures var fk := ForeignKeyName(r);
      Mentions(MigrationText(t, UpdateForeignKey(r, previous)), [fk, fk, fk])
  {
    UpdateKeepsKeyName(t, dst, r, previous);
    DropThenAddMentions(r, previous);
  }
}
