/** The static database facade (src/Core/Db.php): the WHERE-clause builder,
    the routing of criteria in `delete` and `update`, and the memoised
    connection handle. */
module CoreDb {
  import opened Php
  import opened Framework

  /** The framework's escape functions, whose internals are not modelled:
      `bqSQL` for identifiers and `pSQL` for values. */
  datatype Escaper = Escaper(bq: Key -> string, p: Value -> string)

  const Separator := ") AND ("

  /** The right-hand part of one condition, chosen by the value's type. */
  function Comparison(v: Value, esc: Escaper): string
  {
    match v
    case Null => "IS NULL"
    case Str(_) => "= '" + esc.p(v) + "'"
    case Bool(b) => "= " + (if b then "1" else "0")
    case _ => "= " + esc.p(v)
  }

  /** The condition for one column. */
  function Clause(k: Key, v: Value, esc: Escaper): string
  {
    "`" + esc.bq(k) + "` " + Comparison(v, esc)
  }

  /** The conditions for all criteria, in the criteria's order. */
  function Conditions(criteria: Entries, esc: Escaper): seq<string>
    decreases |criteria|
  {
    if criteria == [] then []
    else
      var last := criteria[|criteria| - 1];
      Conditions(criteria[..|criteria| - 1], esc) + [Clause(last.0, last.1, esc)]
  }

  /** The predicate `where` returns. */
  function WhereOf(criteria: Entries, esc: Escaper): string
  {
    "(" + Join(Conditions(criteria, esc), Separator) + ")"
  }

  /** `Db::where`: one condition per entry, appended in the loop, joined. */
  method Where(criteria: Entries, esc: Escaper) returns (r: string)
    ensures r == WhereOf(criteria, esc)
  {
    var conditions: seq<string> := [];
    for i := 0 to |criteria|
      invariant conditions == Conditions(criteria[..i], esc)
    {
      var (key, value) := criteria[i];
      var where := "`" + esc.bq(key) + "` ";
      ghost var head := where;
      if value.Null? {
        where := where + "IS NULL";
      } else if value.Str? {
        where := where + "= '" + esc.p(value) + "'";
      } else if value.Bool? {
        where := where + "= " + (if value.b then "1" else "0");
      } else {
        where := where + "= " + esc.p(value);
      }
      assert where == head + Comparison(value, esc);
      assert criteria[..i + 1][..i] == criteria[..i];
      conditions := conditions + [where];
    }
    assert criteria[..|criteria|] == criteria;
    r := "(" + Join(conditions, Separator) + ")";
  }

  /** What `delete` and `update` hand to the framework as their condition:
      an array goes through `where`, anything else (a string, null) as is. */
  function WhereArgument(where: Value, esc: Escaper): Value
  {
    if where.Arr? then Str(WhereOf(where.entries, esc)) else where
  }

  // ---------------------------------------------------------------------
  // Properties of the builder

  /** There is one condition per entry, and the i-th condition renders the
      i-th entry. */
  lemma {:induction false} ConditionsSpec(criteria: Entries, esc: Escaper)
    ensures |Conditions(criteria, esc)| == |criteria|
    ensures forall i :: 0 <= i < |criteria| ==>
      Conditions(criteria, esc)[i] == Clause(criteria[i].0, criteria[i].1, esc)
    decreases |criteria|
  {
    if criteria != [] {
      ConditionsSpec(criteria[..|criteria| - 1], esc);
    }
  }

  /** Every condition is the backquoted escaped column name, a space, then
      the comparison for the value's type: null before any other test,
      quoted for strings, 0/1 for booleans, unquoted otherwise. */
  lemma ClauseRendering(k: Key, v: Value, esc: Escaper)
    ensures var head := "`" + esc.bq(k) + "` ";
      && |head| <= |Clause(k, v, esc)|
      && Clause(k, v, esc)[..|head|] == head
      && (v.Null? ==> Clause(k, v, esc) == head + "IS NULL")
      && (v.Str? ==> Clause(k, v, esc) == head + "= '" + esc.p(v) + "'")
      && (v == Bool(true) ==> Clause(k, v, esc) == head + "= 1")
      && (v == Bool(false) ==> Clause(k, v, esc) == head + "= 0")
      && (!v.Null? && !v.Str? && !v.Bool? ==> Clause(k, v, esc) == head + "= " + esc.p(v))
  {
  }

  /** No criteria: exactly `()`. */
  lemma WhereEmpty(esc: Escaper)
    ensures WhereOf([], esc) == "()"
  {
  }

  /** One entry: its condition in one pair of parentheses. */
  lemma WhereSingle(k: Key, v: Value, esc: Escaper)
    ensures WhereOf([(k, v)], esc) == "(" + Clause(k, v, esc) + ")"
  {
    assert [(k, v)][..0] == [];
    assert Conditions([(k, v)], esc) == [Clause(k, v, esc)];
  }

  /** A further entry adds `) AND (` and its condition just before the
      closing parenthesis: entries keep their order. */
  lemma WhereAppend(criteria: Entries, k: Key, v: Value, esc: Escaper)
    requires criteria != []
    ensures var w := WhereOf(criteria, esc);
      WhereOf(criteria + [(k, v)], esc) == w[..|w| - 1] + Separator + Clause(k, v, esc) + ")"
  {
    var cs := Conditions(criteria, esc);
    ConditionsSnoc(criteria, k, v, esc);
    JoinAppend(cs, Clause(k, v, esc), Separator);
    Reopen(Join(cs, Separator), Clause(k, v, esc));
  }

  /** Reopening a parenthesised string to add one more condition. */
  lemma Reopen(j: string, x: string)
    ensures var w := "(" + j + ")";
      w[..|w| - 1] + Separator + x + ")" == "(" + (j + Separator + x) + ")"
  {
    var w := "(" + j + ")";
    assert w[..|w| - 1] == "(" + j;
  }

  /** A further entry adds its condition last. */
  lemma ConditionsSnoc(criteria: Entries, k: Key, v: Value, esc: Escaper)
    requires criteria != []
    ensures Conditions(criteria + [(k, v)], esc) == Conditions(criteria, esc) + [Clause(k, v, esc)]
    ensures |Conditions(criteria, esc)| > 0
  {
    var all := criteria + [(k, v)];
    assert all[..|all| - 1] == criteria;
  }

  /** For n entries the result is the n conditions, n - 1 separators and one
      outer pair of parentheses, and nothing else. */
  lemma WhereLength(criteria: Entries, esc: Escaper)
    requires criteria != []
    ensures |WhereOf(criteria, esc)| ==
      2 + TotalLength(Conditions(criteria, esc)) + (|criteria| - 1) * |Separator|
  {
    ConditionsSpec(criteria, esc);
    JoinLength(Conditions(criteria, esc), Separator);
  }

  /** `{active: true}` gives `` (`active` = 1) `` when the column name
      escapes to itself. */
  lemma WhereTrueExample(esc: Escaper)
    requires esc.bq(StrKey("active")) == "active"
    ensures WhereOf([(StrKey("active"), Bool(true))], esc) == "(`active` = 1)"
  {
    WhereSingle(StrKey("active"), Bool(true), esc);
    Wrapped("active", "= 1");
  }

  /** `{active: false}` gives `` (`active` = 0) ``. */
  lemma WhereFalseExample(esc: Escaper)
    requires esc.bq(StrKey("active")) == "active"
    ensures WhereOf([(StrKey("active"), Bool(false))], esc) == "(`active` = 0)"
  {
    WhereSingle(StrKey("active"), Bool(false), esc);
    Wrapped("active", "= 0");
  }

  /** `{id: 5}` gives `` (`id` = 5) `` when the escapes leave `id` and `5`
      alone: numbers are not quoted. */
  lemma WhereIntExample(esc: Escaper)
    requires esc.bq(StrKey("id")) == "id" && esc.p(Int(5)) == "5"
    ensures WhereOf([(StrKey("id"), Int(5))], esc) == "(`id` = 5)"
  {
    WhereSingle(StrKey("id"), Int(5), esc);
    Wrapped("id", "= 5");
  }

  /** `{deleted_at: null}` gives `` (`deleted_at` IS NULL) ``. */
  lemma WhereNullExample(esc: Escaper)
    requires esc.bq(StrKey("deleted_at")) == "deleted_at"
    ensures WhereOf([(StrKey("deleted_at"), Null)], esc) == "(`deleted_at` IS NULL)"
  {
    WhereSingle(StrKey("deleted_at"), Null, esc);
    Wrapped("deleted_at", "IS NULL");
  }

  /** One condition in its parentheses, written out. */
  lemma Wrapped(column: string, comparison: string)
    ensures "(" + ("`" + column + "` " + comparison) + ")" == "(`" + column + "` " + comparison + ")"
  {
  }

  // ---------------------------------------------------------------------
  // The facade

  class Db {
    const host: Host
    /** The object `PsDb::getInstance()` returns. */
    const instance: Handle
    const esc: Escaper
    /** The static `$db`. */
    var db: Option<Handle>
    /** How often the facade asked the framework for its instance. */
    ghost var lookups: nat

    ghost predicate Valid()
      reads this
    {
      && lookups <= 1
      && (db.None? <==> lookups == 0)
      && (db.Some? ==> db.value == instance)
    }

    constructor (host: Host, instance: Handle, esc: Escaper)
      ensures Valid() && this.host == host && this.instance == instance && db.None?
    {
      this.host := host;
      this.instance := instance;
      this.esc := esc;
      db := None;
      lookups := 0;
    }

    /** `getDb`: the instance is fetched on the first call only and the
        cached handle is returned from then on. */
    method GetDb() returns (h: Handle)
      requires Valid()
      modifies this`db, this`lookups
      ensures Valid() && h == instance && db == Some(h)
      ensures old(db).Some? ==> h == old(db).value && lookups == old(lookups)
      ensures old(db).None? ==> lookups == 1
    {
      if db.None? {
        db := Some(instance);
        lookups := lookups + 1;
      }
      h := db.value;
    }

    /** `delete`: one call to the framework, whose answer is returned. */
    method Delete(table: string, where: Value, outcome: bool) returns (ok: bool)
      requires Valid()
      modifies this`db, this`lookups, host`trace
      ensures Valid() && ok == outcome
      ensures host.trace == old(host.trace) + [DeleteRows(instance, table, WhereArgument(where, esc))]
    {
      var h := GetDb();
      var condition := where;
      if where.Arr? {
        var w := Where(where.entries, esc);
        condition := Str(w);
      }
      host.trace := host.trace + [DeleteRows(h, table, condition)];
      ok := outcome;
    }

    /** `update`: one call to the framework, whose answer is returned. */
    method Update(table: string, data: Entries, where: Value, outcome: bool) returns (ok: bool)
      requires Valid()
      modifies this`db, this`lookups, host`trace
      ensures Valid() && ok == outcome
      ensures host.trace == old(host.trace) + [UpdateRows(instance, table, data, WhereArgument(where, esc))]
    {
      var h := GetDb();
      var condition := where;
      if where.Arr? {
        var w := Where(where.entries, esc);
        condition := Str(w);
      }
      host.trace := host.trace + [UpdateRows(h, table, data, condition)];
      ok := outcome;
    }
  }
}
