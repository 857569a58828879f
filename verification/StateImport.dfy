/** Moving the whole state between databases: export, import into an empty database inside one transaction, and a
    comparison that does not look at the order of rows. */
module StateImport {
  import opened Protocol
  import opened Order

  const STATE_FORMAT := "aursmith-state"
  const STATE_VERSION: nat := 2

  const TABLES: seq<string> :=
    ["admin", "packages", "subscriptions", "provider_choices", "revisions", "reviews", "builds", "publications"]

  datatype Value = Null | Boolean(flag: bool) | Number(number: int) | Text(text: string) | Nested(json: string)

  type Row = map<string, Value>
  type Tables = map<string, seq<Row>>

  datatype Document = Document(format: string, version: nat, tables: Tables)

  /** What the database engine knows of the tables: their columns, what a row reads back as once it is inserted, which
      rows the constraints of a table allow together, whether all references between tables hold, in which order a table
      is exported; and how a row is written down as text. */
  datatype Schema = Schema(
    columns: string -> set<string>, readBack: (string, Row) -> Row, legal: (string, multiset<Row>) -> bool,
    referencesHold: map<string, multiset<Row>> -> bool, exportKey: (string, Row) -> string, serialise: Row -> string)

  // ---------------------------------------------------------------- comparing

  function RowsOf(tables: Tables, table: string): seq<Row> {
    if table in tables then tables[table] else []
  }

  function ByKey(key: Row -> string): (Row, Row) -> Ordering {
    (a, b) => Compare(key(a), key(b))
  }

  /** Rows in an order that does not depend on how they came. */
  function Normalize(schema: Schema, tables: Tables): Tables {
    map table | table in tables :: Sort(ByKey(schema.serialise), tables[table])
  }

  function WithTables(tables: Tables, names: seq<string>): Tables {
    map table | table in tables.Keys + (set t | t in names) :: RowsOf(tables, table)
  }

  function WithAllTables(tables: Tables): Tables {
    WithTables(tables, TABLES)
  }

  function Export(schema: Schema, tables: Tables): Tables {
    map table | table in TABLES :: Sort(ByKey(row => schema.exportKey(table, row)), RowsOf(tables, table))
  }

  /** The comparison both the verification and the import make. */
  predicate Agrees(schema: Schema, tables: Tables, document: Document) {
    Normalize(schema, Export(schema, tables)) == WithAllTables(Normalize(schema, document.tables))
  }

  ghost predicate Injective(key: Row -> string) {
    forall a, b :: key(a) == key(b) ==> a == b
  }

  lemma KeysAreOrdered(key: Row -> string)
    ensures Consistent(ByKey(key)) && (Injective(key) ==> Distinguishes(ByKey(key)))
  {
    hide Compare;
    var compare := ByKey(key);
    forall a, b ensures compare(a, b) == Reverse(compare(b, a)) && (compare(a, b) == Same ==> key(a) == key(b)) {
      CompareIsOrder(key(a), key(b));
    }
    forall a, b, c | compare(a, b) != Greater && compare(b, c) != Greater ensures compare(a, c) != Greater {
      Transitive(key(a), key(b), key(c));
    }
  }

  /** The document and the database hold the same rows, table by table, counting repetitions; a table the document does
      not have counts as empty, and the document has no other tables. */
  ghost predicate SameRows(tables: Tables, document: Document) {
    && (forall table <- document.tables :: table in TABLES)
    && (forall table <- TABLES :: multiset(RowsOf(tables, table)) == multiset(RowsOf(document.tables, table)))
  }

  lemma NormalizedRows(schema: Schema, tables: Tables, document: Document, table: string)
    requires table in TABLES && Injective(schema.serialise)
    ensures var actual, expected := Normalize(schema, Export(schema, tables)),
        WithAllTables(Normalize(schema, document.tables));
            RowsOf(actual, table) == RowsOf(expected, table) <==>
              multiset(RowsOf(tables, table)) == multiset(RowsOf(document.tables, table))
  {
    var compare := ByKey(schema.serialise);
    KeysAreOrdered(schema.serialise);
    var exported := Export(schema, tables)[table];
    KeysAreOrdered(row => schema.exportKey(table, row));
    SortSorts(ByKey(row => schema.exportKey(table, row)), RowsOf(tables, table));
    assert multiset(exported) == multiset(RowsOf(tables, table));
    SortsAlike(compare, exported, RowsOf(document.tables, table));
    if table !in document.tables { assert Sort(compare, RowsOf(document.tables, table)) == []; }
  }

  /** The comparison succeeds exactly when the rows are the same. */
  lemma AgreesExactly(schema: Schema, tables: Tables, document: Document)
    requires Injective(schema.serialise)
    ensures Agrees(schema, tables, document) <==> SameRows(tables, document)
  {
    hide Normalize, Injective;
    var actual, expected := Normalize(schema, Export(schema, tables)),
        WithAllTables(Normalize(schema, document.tables));
    forall table <- TABLES
      ensures RowsOf(actual, table) == RowsOf(expected, table) <==>
          multiset(RowsOf(tables, table)) == multiset(RowsOf(document.tables, table))
    {
      NormalizedRows(schema, tables, document, table);
    }
    NormalizeKeys(schema, Export(schema, tables));
    NormalizeKeys(schema, document.tables);
    if Agrees(schema, tables, document) {
      forall table <- document.tables ensures table in TABLES { assert table in expected; }
    }
    if SameRows(tables, document) {
      forall table ensures table in actual <==> table in expected {}
      forall table <- actual ensures actual[table] == expected[table] { assert RowsOf(actual, table) == actual[table]; }
    }
  }

  lemma NormalizeKeys(schema: Schema, tables: Tables)
    ensures Normalize(schema, tables).Keys == tables.Keys
  {
  }

  // ---------------------------------------------------------------- importing

  /** The rows of a table after the document's rows went in, one by one; none when a column is unknown or a constraint
      fails. */
  function Inserted(schema: Schema, table: string, rows: seq<Row>): Option<seq<Row>> {
    if |rows| == 0 then Some([]) else
    var before := Inserted(schema, table, rows[..|rows| - 1]);
    var row := rows[|rows| - 1];
    if before.None? || !(row.Keys <= schema.columns(table)) then None else
    var after := before.value + [schema.readBack(table, row)];
    if schema.legal(table, multiset(after)) then Some(after) else None
  }

  function Loaded(schema: Schema, document: Document): Tables {
    map table | table in TABLES :: var rows := Inserted(schema, table, RowsOf(document.tables, table));
        if rows.Some? then rows.value else []
  }

  function AsMultisets(tables: Tables): map<string, multiset<Row>> {
    map table | table in tables :: multiset(tables[table])
  }

  predicate IsEmpty(tables: Tables) {
    forall table <- TABLES :: RowsOf(tables, table) == []
  }

  /** What is checked before the transaction begins. */
  predicate Admitted(tables: Tables, document: Document) {
    && document.format == STATE_FORMAT && document.version == STATE_VERSION
    && (forall table <- document.tables :: table in TABLES) && IsEmpty(tables)
  }

  predicate Importable(schema: Schema, tables: Tables, document: Document) {
    && Admitted(tables, document)
    && (forall table <- TABLES :: Inserted(schema, table, RowsOf(document.tables, table)).Some?)
    && schema.referencesHold(AsMultisets(Loaded(schema, document)))
    && Agrees(schema, Loaded(schema, document), document)
  }

  /** What is refused before the transaction: another format or version, a table the state does not have, and a database
      that holds any row. */
  lemma AdmittedExactly(tables: Tables, document: Document)
    ensures Admitted(tables, document) <==>
              && document.format == "aursmith-state" && document.version == 2
              && (forall table <- document.tables ::
                    table in ["admin", "packages", "subscriptions", "provider_choices", "revisions", "reviews",
                              "builds", "publications"])
              && (forall table <- ["admin", "packages", "subscriptions", "provider_choices", "revisions", "reviews",
                                   "builds", "publications"] ::
                    table in tables ==> tables[table] == [])
  {
  }

  /** What the rows read back as, in order. */
  function ReadBack(schema: Schema, table: string, rows: seq<Row>): seq<Row> {
    seq(|rows|, i requires 0 <= i < |rows| => schema.readBack(table, rows[i]))
  }

  /** The row with number `n` has only known columns, and the constraints hold once it is in. */
  predicate Fits(schema: Schema, table: string, rows: seq<Row>, n: nat)
    requires 1 <= n <= |rows|
  {
    rows[n - 1].Keys <= schema.columns(table) && schema.legal(table, multiset(ReadBack(schema, table, rows[..n])))
  }

  /** The rows of a table are taken exactly when each has only known columns and the constraints hold after each of
      them; then the table holds what each reads back as, in order. */
  lemma {:induction false} InsertedExactly(schema: Schema, table: string, rows: seq<Row>)
    ensures Inserted(schema, table, rows).Some? <==> forall n :: 1 <= n <= |rows| ==> Fits(schema, table, rows, n)
    ensures Inserted(schema, table, rows).Some? ==> Inserted(schema, table, rows).value == ReadBack(schema, table, rows)
  {
    if |rows| > 0 {
      var before := rows[..|rows| - 1];
      InsertedExactly(schema, table, before);
      FitsBefore(schema, table, rows);
      ReadBackPush(schema, table, rows);
      hide ReadBack;
      assert rows[..|rows|] == rows;
      assert Fits(schema, table, rows, |rows|) <==>
               rows[|rows| - 1].Keys <= schema.columns(table)
               && schema.legal(table, multiset(ReadBack(schema, table, rows)));
      if forall n :: 1 <= n <= |rows| ==> Fits(schema, table, rows, n) {
        forall n | 1 <= n <= |before| ensures Fits(schema, table, before, n) {
          assert Fits(schema, table, rows, n);
        }
        assert Fits(schema, table, rows, |rows|);
      }
      if Inserted(schema, table, rows).Some? {
        forall n | 1 <= n <= |rows| ensures Fits(schema, table, rows, n) {
          if n < |rows| { assert Fits(schema, table, before, n); }
        }
      }
    }
  }

  lemma FitsBefore(schema: Schema, table: string, rows: seq<Row>)
    requires |rows| > 0
    ensures forall n :: 1 <= n < |rows| ==> Fits(schema, table, rows[..|rows| - 1], n) == Fits(schema, table, rows, n)
  {
    hide ReadBack;
    forall n | 1 <= n < |rows|
      ensures Fits(schema, table, rows[..|rows| - 1], n) == Fits(schema, table, rows, n)
    {
      assert rows[..|rows| - 1][..n] == rows[..n];
    }
  }

  lemma ReadBackPush(schema: Schema, table: string, rows: seq<Row>)
    requires |rows| > 0
    ensures ReadBack(schema, table, rows) ==
              ReadBack(schema, table, rows[..|rows| - 1]) + [schema.readBack(table, rows[|rows| - 1])]
  {
  }

  lemma {:induction false} InsertedReadsBack(schema: Schema, table: string, rows: seq<Row>)
    requires forall row <- rows :: row.Keys <= schema.columns(table) && schema.readBack(table, row) == row
    requires forall part: multiset<Row> :: part <= multiset(rows) ==> schema.legal(table, part)
    ensures Inserted(schema, table, rows) == Some(rows)
  {
    if |rows| > 0 {
      var before := rows[..|rows| - 1];
      assert rows == before + [rows[|rows| - 1]];
      assert multiset(before) <= multiset(rows);
      forall part: multiset<Row> | part <= multiset(before) ensures schema.legal(table, part) {}
      InsertedReadsBack(schema, table, before);
    }
  }

  /** A database in order: its rows have the tables' columns and read back as they are, constraints hold of its tables
      and do not come to fail when rows are left out, and references hold. */
  ghost predicate InOrder(schema: Schema, tables: Tables) {
    && tables.Keys == (set t | t in TABLES)
    && (forall table <- tables :: Loadable(schema, table, multiset(tables[table])))
    && schema.referencesHold(AsMultisets(tables))
  }

  function ExportDocument(schema: Schema, tables: Tables): Document {
    Document(STATE_FORMAT, STATE_VERSION, Export(schema, tables))
  }

  lemma ExportedRows(schema: Schema, tables: Tables, table: string)
    requires table in TABLES
    ensures table in Export(schema, tables)
        && multiset(Export(schema, tables)[table]) == multiset(RowsOf(tables, table))
  {
    KeysAreOrdered(row => schema.exportKey(table, row));
    SortSorts(ByKey(row => schema.exportKey(table, row)), RowsOf(tables, table));
  }

  /** Rows that read back as they are, and that constraints allow together in any part. */
  ghost predicate Loadable(schema: Schema, table: string, rows: multiset<Row>) {
    && (forall row <- rows :: row.Keys <= schema.columns(table) && schema.readBack(table, row) == row)
    && (forall part: multiset<Row> :: part <= rows ==> schema.legal(table, part))
  }

  lemma LoadsExported(schema: Schema, tables: Tables, table: string)
    requires table in TABLES && table in tables && Loadable(schema, table, multiset(tables[table]))
    ensures table in Export(schema, tables)
        && Inserted(schema, table, Export(schema, tables)[table]) == Some(Export(schema, tables)[table])
  {
    hide Export, Inserted;
    ExportedRows(schema, tables, table);
    var rows := Export(schema, tables)[table];
    assert Loadable(schema, table, multiset(rows));
    LoadableInserts(schema, table, rows);
  }

  lemma LoadableInserts(schema: Schema, table: string, rows: seq<Row>)
    requires Loadable(schema, table, multiset(rows))
    ensures Inserted(schema, table, rows) == Some(rows)
  {
    hide Inserted;
    forall row <- rows ensures row.Keys <= schema.columns(table) && schema.readBack(table, row) == row {
      assert row in multiset(rows);
    }
    InsertedReadsBack(schema, table, rows);
  }

  lemma LoadsOne(schema: Schema, tables: Tables, table: string)
    requires InOrder(schema, tables) && table in TABLES
    ensures table in tables && table in Export(schema, tables)
    ensures Inserted(schema, table, Export(schema, tables)[table]) == Some(Export(schema, tables)[table])
    ensures multiset(Export(schema, tables)[table]) == multiset(tables[table])
  {
    hide Export, Inserted;
    assert table in (set t | t in TABLES);
    LoadsExported(schema, tables, table);
    ExportedRows(schema, tables, table);
  }

  /** Exporting a database that is in order and importing the document into an empty one succeeds, and keeps every table
      up to the order of its rows. */
  lemma ExportThenImport(schema: Schema, tables: Tables, empty: Tables)
    requires InOrder(schema, tables) && IsEmpty(empty) && Injective(schema.serialise)
    ensures var document := ExportDocument(schema, tables);
            && Importable(schema, empty, document)
            && forall table <- TABLES ::
                table in Loaded(schema, document)
                && multiset(Loaded(schema, document)[table]) == multiset(RowsOf(tables, table))
  {
    hide Export, Inserted, Injective, Loadable, Agrees, IsEmpty;
    var document := ExportDocument(schema, tables);
    var loaded := Loaded(schema, document);
    ExportKeys(schema, tables);
    forall table <- TABLES
      ensures table in tables && table in loaded && table in document.tables && loaded[table] == document.tables[table]
      ensures multiset(loaded[table]) == multiset(tables[table])
          && Inserted(schema, table, RowsOf(document.tables, table)).Some?
    {
      LoadsOne(schema, tables, table);
    }
    assert SameRows(loaded, document);
    AgreesExactly(schema, loaded, document);
    SameMultisets(schema, tables, loaded);
  }

  lemma SameMultisets(schema: Schema, tables: Tables, loaded: Tables)
    requires InOrder(schema, tables) && loaded.Keys == (set t | t in TABLES)
    requires forall table <- TABLES ::
        table in tables && table in loaded && multiset(loaded[table]) == multiset(tables[table])
    ensures schema.referencesHold(AsMultisets(loaded))
  {
    hide Loadable;
    assert AsMultisets(loaded) == AsMultisets(tables);
  }

  lemma ExportKeys(schema: Schema, tables: Tables)
    ensures Export(schema, tables).Keys == (set t | t in TABLES)
  {
  }

  // ---------------------------------------------------------------- the database

  class Database {
    const schema: Schema
    var tables: Tables
    var foreignKeys: bool

    constructor (schema: Schema)
      ensures this.schema == schema && tables == map[] && foreignKeys
    {
      this.schema, tables, foreignKeys := schema, map[], true;
    }

    method ExportTables() returns (exported: Tables)
      ensures exported == Export(schema, tables)
    {
      hide Sort;
      exported := map[];
      for i := 0 to |TABLES|
        invariant exported.Keys == (set t | t in TABLES[..i])
        invariant forall table <- exported ::
            exported[table] == Sort(ByKey(row => schema.exportKey(table, row)), RowsOf(tables, table))
      {
        var table := TABLES[i];
        assert TABLES[..i + 1] == TABLES[..i] + [table];
        var rows := SortRows(row => schema.exportKey(table, row), RowsOf(tables, table));
        exported := exported[table := rows];
      }
      assert TABLES[..|TABLES|] == TABLES;
    }

    /** Compare the database with a document. */
    method Verify(document: Document) returns (counts: Option<map<string, nat>>)
      ensures Injective(schema.serialise) ==> (counts.Some? <==> SameRows(tables, document))
      ensures counts.Some? ==> counts.value.Keys == document.tables.Keys + (set t | t in TABLES)
                               && forall table <- counts.value ::
                                   counts.value[table] == |RowsOf(document.tables, table)|
    {
      hide Export, Injective, Sort;
      var exported := ExportTables();
      var actual := NormalizeTables(schema, exported);
      var expected := NormalizeTables(schema, document.tables);
      if Injective(schema.serialise) { AgreesExactly(schema, tables, document); }
      expected := AddMissing(expected, TABLES);
      if actual != expected { return None; }
      CountsOf(schema, document.tables);
      counts := Some(map table | table in expected :: |expected[table]|);
    }

    /** Insert the document's rows of one table. */
    method InsertRows(table: string, rows: seq<Row>) returns (ok: bool)
      requires RowsOf(tables, table) == []
      modifies `tables
      ensures ok <==> Inserted(schema, table, rows).Some?
      ensures ok ==> tables == old(tables)[table := Inserted(schema, table, rows).value]
    {
      var stored: seq<Row> := [];
      for i := 0 to |rows|
        invariant Inserted(schema, table, rows[..i]) == Some(stored) && tables == old(tables)
      {
        assert rows[..i + 1][..i] == rows[..i];
        var row := rows[i];
        if !(row.Keys <= schema.columns(table))
            || !schema.legal(table, multiset(stored + [schema.readBack(table, row)])) {
          InsertedStops(schema, table, rows, i + 1);
          return false;
        }
        stored := stored + [schema.readBack(table, row)];
      }
      assert rows[..|rows|] == rows;
      tables := tables[table := stored];
      ok := true;
    }

    /** Import into an empty database. Everything happens in one transaction, which is only committed once the tables
        read back as the document; otherwise the tables stay as they were. An import that fails inside the transaction
        leaves the connection with reference checks switched off. */
    method Import(document: Document) returns (ok: bool)
      modifies this
      ensures ok <==> Importable(schema, old(tables), document)
      ensures ok ==> tables == Loaded(schema, document) && foreignKeys
      ensures ok && Injective(schema.serialise) ==> SameRows(tables, document)
      ensures !ok ==> tables == old(tables) && (foreignKeys <==> old(foreignKeys) && !Admitted(tables, document))
    {
      hide Inserted, Agrees, Injective, Loaded, Admitted;
      var admitted := Admits(document);
      if !admitted { return false; }
      foreignKeys := false;
      var loaded := Transact(document);
      if loaded.None? { return false; }
      tables := loaded.value;
      foreignKeys := true;
      if Injective(schema.serialise) { AgreesExactly(schema, tables, document); }
      ok := true;
    }

    /** The checks before the transaction. */
    method Admits(document: Document) returns (admitted: bool)
      ensures admitted <==> Admitted(tables, document)
    {
      if document.format != STATE_FORMAT || document.version != STATE_VERSION { return false; }
      if exists table <- document.tables :: table !in TABLES { return false; }
      for i := 0 to |TABLES|
        invariant forall table <- TABLES[..i] :: RowsOf(tables, table) == []
      {
        assert TABLES[..i + 1] == TABLES[..i] + [TABLES[i]];
        if |RowsOf(tables, TABLES[i])| > 0 {
          assert TABLES[i] in TABLES;
          return false;
        }
      }
      assert TABLES[..|TABLES|] == TABLES;
      admitted := true;
    }

    /** What the transaction holds when it may be committed. */
    method Transact(document: Document) returns (loaded: Option<Tables>)
      ensures loaded.Some? <==>
                && (forall table <- TABLES :: Inserted(schema, table, RowsOf(document.tables, table)).Some?)
                && schema.referencesHold(AsMultisets(Loaded(schema, document)))
                && Agrees(schema, Loaded(schema, document), document)
      ensures loaded.Some? ==> loaded.value == Loaded(schema, document)
    {
      hide Inserted, Agrees, Loaded;
      loaded := Load(document);
      if loaded.None? { return; }
      if !schema.referencesHold(AsMultisets(loaded.value)) { return None; }
      var transaction := new Database(schema);
      transaction.tables := loaded.value;
      var agrees := transaction.AgreesWith(document);
      if !agrees { return None; }
    }

    method AgreesWith(document: Document) returns (agrees: bool)
      ensures agrees == Agrees(schema, tables, document)
    {
      hide Export, Sort;
      var exported := ExportTables();
      var actual := NormalizeTables(schema, exported);
      var expected := NormalizeTables(schema, document.tables);
      expected := AddMissing(expected, TABLES);
      agrees := actual == expected;
    }

    /** The tables as the transaction sees them after all insertions. */
    method Load(document: Document) returns (loaded: Option<Tables>)
      ensures loaded.Some? <==> forall table <- TABLES :: Inserted(schema, table, RowsOf(document.tables, table)).Some?
      ensures loaded.Some? ==> loaded.value == Loaded(schema, document)
    {
      hide Inserted;
      var transaction := new Database(schema);
      TablesAreDistinct();
      for i := 0 to |TABLES|
        invariant transaction.schema == schema && fresh(transaction)
        invariant transaction.tables.Keys == (set t | t in TABLES[..i])
        invariant forall table <- TABLES[..i] ::
            Inserted(schema, table, RowsOf(document.tables, table)) == Some(transaction.tables[table])
      {
        var table := TABLES[i];
        assert TABLES[..i + 1] == TABLES[..i] + [table];
        assert table !in TABLES[..i];
        var inserted := transaction.InsertRows(table, RowsOf(document.tables, table));
        if !inserted {
          assert table in TABLES;
          return None;
        }
      }
      assert TABLES[..|TABLES|] == TABLES;
      assert transaction.tables == Loaded(schema, document);
      loaded := Some(transaction.tables);
    }
  }

  lemma TablesAreDistinct()
    ensures NoRepeats(TABLES)
  {
  }

  lemma {:induction false} InsertedStops(schema: Schema, table: string, rows: seq<Row>, i: nat)
    requires i <= |rows| && Inserted(schema, table, rows[..i]).None?
    ensures Inserted(schema, table, rows).None?
  {
    if i == |rows| {
      assert rows[..i] == rows;
    } else {
      assert rows[..|rows| - 1][..i] == rows[..i];
      InsertedStops(schema, table, rows[..|rows| - 1], i);
    }
  }

  lemma CountsOf(schema: Schema, tables: Tables)
    ensures var expected := WithAllTables(Normalize(schema, tables));
            && expected.Keys == tables.Keys + (set t | t in TABLES)
            && forall table <- expected :: |expected[table]| == |RowsOf(tables, table)|
  {
    hide Sort;
    KeysAreOrdered(schema.serialise);
    forall table <- tables ensures |Sort(ByKey(schema.serialise), tables[table])| == |tables[table]| {
      SortSorts(ByKey(schema.serialise), tables[table]);
      assert |multiset(Sort(ByKey(schema.serialise), tables[table]))| == |multiset(tables[table])|;
    }
  }

  /** Sorting by insertion. */
  method SortRows(key: Row -> string, rows: seq<Row>) returns (sorted: seq<Row>)
    ensures sorted == Sort(ByKey(key), rows)
  {
    sorted := [];
    for i := 0 to |rows|
      invariant sorted == Sort(ByKey(key), rows[..i])
    {
      assert rows[..i + 1][..i] == rows[..i];
      sorted := Insert(ByKey(key), sorted, rows[i]);
    }
    assert rows[..|rows|] == rows;
  }

  method NormalizeTables(schema: Schema, tables: Tables) returns (normal: Tables)
    ensures normal == Normalize(schema, tables)
  {
    hide Sort;
    normal := tables;
    var rest := tables.Keys;
    while rest != {}
      invariant rest <= tables.Keys && normal.Keys == tables.Keys
      invariant forall table <- tables :: normal[table] == if table in rest then tables[table]
          else Sort(ByKey(schema.serialise), tables[table])
    {
      var table :| table in rest;
      rest := rest - {table};
      var rows := SortRows(schema.serialise, tables[table]);
      normal := normal[table := rows];
    }
  }

  /** Every table that is missing is there, with no rows. */
  method AddMissing(tables: Tables, names: seq<string>) returns (all: Tables)
    ensures all == WithTables(tables, names)
  {
    all := tables;
    for i := 0 to |names|
      invariant forall table :: table in all <==> table in tables || table in names[..i]
      invariant forall table <- all :: all[table] == RowsOf(tables, table)
    {
      assert names[..i + 1] == names[..i] + [names[i]];
      if names[i] !in all { all := all[names[i] := []]; }
    }
    assert names[..|names|] == names;
  }
}
