/**
 * `Migration.loadFromDatabase`: the applied migrations, rebuilt from the rows
 * of `SELECT * FROM migrations ORDER BY name DESC`.
 */
module AppliedState {
  import opened Naming
  import opened Migrations
  import opened Catalog

  /** A row of the `migrations` table; only its `name` column is read. */
  datatype Row = Row(name: string)

  const SelectAppliedSql := "SELECT * FROM migrations ORDER BY name DESC"

  function RowNames(rows: seq<Row>): seq<string> {
    seq(|rows|, i requires 0 <= i < |rows| => rows[i].name)
  }

  /**
   * `Migration.loadFromDatabase`: `query` is the statement it hands to
   * `driver.all`, with no bound parameters; given what that call returned, an
   * error is passed on with no migrations; otherwise row `i` becomes the
   * migration at `join(dir, rows[i].name)`, in the order the rows came.
   */
  method LoadFromDatabase(dir: string, rows: Result<seq<Row>>, lib: Library)
    returns (query: SqlCall, r: Result<seq<Migration>>)
    ensures query == SqlCall(SelectAppliedSql, [])
    ensures rows.Err? ==> r == Err(rows.error)
    ensures rows.Ok? ==> Loaded(r, JoinAll(dir, RowNames(rows.value), lib.join), lib.humanize)
  {
    query := SqlCall(SelectAppliedSql, []);
    if rows.Err? {
      r := Err(rows.error);
      return;
    }
    r := MapPaths(JoinAll(dir, RowNames(rows.value), lib.join), lib);
  }

  /**
   * When the stored names are canonical and the directory part is clean, the
   * load succeeds and the migrations carry the rows' own names, in row order.
   */
  lemma LoadedRowsKeepNames(r: Result<seq<Migration>>, dir: string, rows: seq<Row>, prefix: string, lib: Library)
    requires Loaded(r, JoinAll(dir, RowNames(rows), lib.join), lib.humanize)
    requires forall i :: 0 <= i < |rows| ==> ParseName(rows[i].name) == Some(rows[i].name)
    requires forall i :: 0 <= i < |rows| ==> lib.join(dir, rows[i].name) == prefix + "/" + rows[i].name
    requires !HasNumberedRun(prefix)
    ensures r.Ok? && |r.value| == |rows|
    ensures forall i :: 0 <= i < |rows| ==> r.value[i].name == rows[i].name
  {
    var paths := JoinAll(dir, RowNames(rows), lib.join);
    forall i | 0 <= i < |rows| ensures ParseName(paths[i]) == Some(rows[i].name) {
      ParsedNameReparses(rows[i].name, prefix);
    }
  }
}
