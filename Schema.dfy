/** The DDL builder (src/Core/Schema.php): `CREATE TABLE` from a column map
    and a primary-key list, and `DROP TABLE`, each run through the database
    facade. */
module CoreSchema {
  import opened Php
  import opened Framework
  import opened CoreDb

  /** The process-wide `_DB_PREFIX_` and `_MYSQL_ENGINE_`. */
  datatype Env = Env(prefix: string, engine: string)

  /** A column map entry: the column's name and its raw SQL type. */
  type Column = (string, string)

  function ColumnClause(c: Column): string
  {
    "`" + c.0 + "` " + c.1
  }

  /** The column definitions, in the map's order. */
  function ColumnClauses(columns: seq<Column>): seq<string>
    decreases |columns|
  {
    if columns == [] then []
    else ColumnClauses(columns[..|columns| - 1]) + [ColumnClause(columns[|columns| - 1])]
  }

  /** `primary`. */
  function Primary(keys: seq<string>): string
  {
    "PRIMARY KEY (`" + Join(keys, "`, `") + "`)"
  }

  /** What goes between the parentheses: the columns, then the key clause
      when there is a key. */
  function Definitions(columns: seq<Column>, primary: seq<string>): seq<string>
  {
    ColumnClauses(columns) + (if primary != [] then [Primary(primary)] else [])
  }

  function CreateStatement(env: Env, name: string, columns: seq<Column>, primary: seq<string>): string
  {
    "CREATE TABLE IF NOT EXISTS `" + env.prefix + name + "` (" + Join(Definitions(columns, primary), ", ")
      + ") ENGINE=" + env.engine + " DEFAULT CHARSET=utf8"
  }

  function DropStatement(env: Env, name: string): string
  {
    "DROP TABLE IF EXISTS `" + env.prefix + name + "`"
  }

  /** Every key column in backquotes. */
  function Backquoted(keys: seq<string>): seq<string>
  {
    seq(|keys|, i requires 0 <= i < |keys| => "`" + keys[i] + "`")
  }

  // ---------------------------------------------------------------------
  // Properties of the statements

  /** One definition per column, in the columns' order. */
  lemma {:induction false} ColumnClausesSpec(columns: seq<Column>)
    ensures |ColumnClauses(columns)| == |columns|
    ensures forall i :: 0 <= i < |columns| ==>
      ColumnClauses(columns)[i] == "`" + columns[i].0 + "` " + columns[i].1
    decreases |columns|
  {
    if columns != [] {
      ColumnClausesSpec(columns[..|columns| - 1]);
    }
  }

  /** `primary([c1, ..., cn])` is `PRIMARY KEY (` then every column
      backquoted, separated by `, `, then `)`. */
  lemma PrimaryQuotesEach(keys: seq<string>)
    requires keys != []
    ensures Primary(keys) == "PRIMARY KEY (" + Join(Backquoted(keys), ", ") + ")"
  {
    JoinWrapped(keys, "`", "`", ", ");
    assert "`" + ", " + "`" == "`, `";
  }

  /** The key clause appears only for a non-empty key list, and then after
      every column definition. */
  lemma DefinitionsLayout(columns: seq<Column>, primary: seq<string>)
    ensures primary == [] ==>
      Join(Definitions(columns, primary), ", ") == Join(ColumnClauses(columns), ", ")
    ensures primary != [] && columns == [] ==>
      Join(Definitions(columns, primary), ", ") == Primary(primary)
    ensures primary != [] && columns != [] ==>
      Join(Definitions(columns, primary), ", ") ==
        Join(ColumnClauses(columns), ", ") + ", " + Primary(primary)
  {
    ColumnClausesSpec(columns);
    if primary == [] {
      assert Definitions(columns, primary) == ColumnClauses(columns);
    } else if columns == [] {
      assert Definitions(columns, primary) == [Primary(primary)];
    } else {
      JoinAppend(ColumnClauses(columns), Primary(primary), ", ");
    }
  }

  /** The one column of the example renders as `` `id` INT ``. */
  lemma ExampleColumns()
    ensures ColumnClauses([("id", "INT")]) == ["`id` INT"]
  {
    assert [("id", "INT")][..0] == [];
    assert ColumnClause(("id", "INT")) == "`id` INT";
  }

  /** The example's key clause. */
  lemma ExampleKey()
    ensures Primary(["id"]) == "PRIMARY KEY (`id`)"
  {
    assert Join(["id"], "`, `") == "id";
  }

  /** The definitions of the single-column example. */
  lemma ExampleDefinitions()
    ensures Join(Definitions([("id", "INT")], ["id"]), ", ") == "`id` INT, PRIMARY KEY (`id`)"
  {
    ExampleColumns();
    ExampleKey();
    var d := Definitions([("id", "INT")], ["id"]);
    assert d == ["`id` INT", "PRIMARY KEY (`id`)"];
    assert d[..1] == ["`id` INT"];
  }

  /** The single-column example: ``(`id` INT, PRIMARY KEY (`id`))``. */
  lemma CreateExample(env: Env)
    ensures CreateStatement(env, "t", [("id", "INT")], ["id"]) ==
      "CREATE TABLE IF NOT EXISTS `" + env.prefix + "t` (`id` INT, PRIMARY KEY (`id`)) ENGINE="
        + env.engine + " DEFAULT CHARSET=utf8"
  {
    ExampleDefinitions();
    var d := Join(Definitions([("id", "INT")], ["id"]), ", ");
    assert CreateStatement(env, "t", [("id", "INT")], ["id"]) ==
      "CREATE TABLE IF NOT EXISTS `" + env.prefix + "t" + "` (" + d + ") ENGINE=" + env.engine + " DEFAULT CHARSET=utf8";
  }

  // ---------------------------------------------------------------------
  // The operations

  /** `create`: builds the definitions in a loop, then issues exactly one
      `execute` and returns its answer unchanged. */
  method Create(db: Db, env: Env, name: string, columns: seq<Column>, primary: seq<string>, outcome: bool)
    returns (ok: bool)
    requires db.Valid()
    modifies db`db, db`lookups, db.host`trace
    ensures db.Valid() && ok == outcome
    ensures db.host.trace == old(db.host.trace) + [Execute(db.instance, CreateStatement(env, name, columns, primary))]
  {
    var sql: seq<string> := [];
    for i := 0 to |columns|
      invariant sql == ColumnClauses(columns[..i])
    {
      var (columnName, columnType) := columns[i];
      assert columns[..i + 1][..i] == columns[..i];
      sql := sql + ["`" + columnName + "` " + columnType];
    }
    assert columns[..|columns|] == columns;
    if primary != [] {
      sql := sql + [Primary(primary)];
    }
    assert sql == Definitions(columns, primary);
    var h := db.GetDb();
    var statement := "CREATE TABLE IF NOT EXISTS `" + env.prefix + name + "` (" + Join(sql, ", ")
      + ") ENGINE=" + env.engine + " DEFAULT CHARSET=utf8";
    db.host.trace := db.host.trace + [Execute(h, statement)];
    ok := outcome;
  }

  /** `drop`: exactly one `execute`, whose answer is returned unchanged. */
  method Drop(db: Db, env: Env, name: string, outcome: bool) returns (ok: bool)
    requires db.Valid()
    modifies db`db, db`lookups, db.host`trace
    ensures db.Valid() && ok == outcome
    ensures db.host.trace == old(db.host.trace) + [Execute(db.instance, DropStatement(env, name))]
  {
    var h := db.GetDb();
    db.host.trace := db.host.trace + [Execute(h, "DROP TABLE IF EXISTS `" + env.prefix + name + "`")];
    ok := outcome;
  }
}
