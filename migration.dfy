/**
 * The `Migration` object: its two construction forms, the record it writes to
 * the `migrations` table, and the mapping from paths to migrations that both
 * loaders share.
 */
module Migrations {
  import opened Naming

  /** Why a load yields no migrations: an error passed through from I/O, or a path the decoder rejects. */
  datatype Error = IoError(message: string) | MalformedName(path: string)

  datatype Result<T> = Ok(value: T) | Err(error: Error)

  /** The statement `writeMigrationRecord` runs, with its bound parameters. */
  datatype SqlCall = SqlCall(sql: string, params: seq<string>)

  const InsertRecordSql := "INSERT INTO migrations (name, version) VALUES (?, ?)"

  class Migration {
    var title: string
    var num: string
    var name: string
    var path: string

    /** `new Migration(title, dir, num)`: the generator's form, which computes name and path. */
    constructor (title: string, dir: string, num: string, lib: Library)
      ensures this.title == title && this.num == num
      ensures name == FormatName(title, num, lib.dasherize)
      ensures path == FormatPath(dir, name, lib.join)
    {
      var n := FormatName(title, num, lib.dasherize);
      this.title := title;
      this.num := num;
      this.name := n;
      this.path := FormatPath(dir, n, lib.join);
    }

    /**
     * `new Migration(path)` on a path whose name match succeeds: the name is
     * parsed from the path, then split into the number and the slug, and the
     * slug is humanised into the title.
     */
    constructor FromPath(path: string, lib: Library)
      requires ParseName(path).Some?
      ensures DecodedFrom(path, lib.humanize)
    {
      var n := ParseName(path).value;
      ParsedNameSplits(path);
      var parts := SplitName(n).value;
      this.path := path;
      this.name := n;
      this.num := parts.0;
      this.title := lib.humanize(parts.1);
    }

    /** The fields are the ones the one-argument constructor derives from `p`. */
    predicate DecodedFrom(p: string, humanize: string -> string)
      reads this
    {
      path == p && Decode(p, humanize) == Some(Identity(name, num, title))
    }
  }

  /**
   * `new Migration(path)` with its failure made explicit: when the path holds
   * no `\d+-[^.]+`, indexing the null match throws, here `MalformedName`.
   */
  method NewFromPath(path: string, lib: Library) returns (r: Result<Migration>)
    ensures r.Err? <==> ParseName(path).None?
    ensures r.Err? ==> r.error == MalformedName(path)
    ensures r.Ok? ==> fresh(r.value) && r.value.DecodedFrom(path, lib.humanize)
  {
    if ParseName(path).None? {
      r := Err(MalformedName(path));
    } else {
      var m := new Migration.FromPath(path, lib);
      r := Ok(m);
    }
  }

  /**
   * `r` is what mapping `new Migration(path)` over `paths` yields: one migration
   * per path, in order, each decoded from its path; or, when some path does not
   * decode, the error for the first such path.
   */
  ghost predicate Loaded(r: Result<seq<Migration>>, paths: seq<string>, humanize: string -> string)
    reads if r.Ok? then set m | m in r.value else {}
  {
    (r.Ok? <==> forall i :: 0 <= i < |paths| ==> ParseName(paths[i]).Some?)
    && (r.Err? ==>
          exists i :: 0 <= i < |paths| && ParseName(paths[i]).None? && r.error == MalformedName(paths[i])
                      && forall j :: 0 <= j < i ==> ParseName(paths[j]).Some?)
    && (r.Ok? ==>
          |r.value| == |paths| && forall i :: 0 <= i < |paths| ==> r.value[i].DecodedFrom(paths[i], humanize))
  }

  /** The `map` over paths shared by both loaders; it stops at the first constructor that throws. */
  method MapPaths(paths: seq<string>, lib: Library) returns (r: Result<seq<Migration>>)
    ensures Loaded(r, paths, lib.humanize)
  {
    var ms: seq<Migration> := [];
    var i := 0;
    while i < |paths|
      invariant 0 <= i <= |paths|
      invariant |ms| == i
      invariant forall j :: 0 <= j < i ==> ParseName(paths[j]).Some?
      invariant forall j :: 0 <= j < i ==> ms[j].DecodedFrom(paths[j], lib.humanize)
    {
      var m := NewFromPath(paths[i], lib);
      if m.Err? {
        r := Err(m.error);
        assert ParseName(paths[i]).None? && r.error == MalformedName(paths[i]);
        return;
      }
      ms := ms + [m.value];
      i := i + 1;
    }
    r := Ok(ms);
  }

  /** `writeMigrationRecord`: the insert it issues, binding the name and then the number. */
  function WriteMigrationRecord(m: Migration): SqlCall
    reads m
  {
    SqlCall(InsertRecordSql, [m.name, m.num])
  }

  /**
   * The record a decoded migration writes binds `[name, num]`, and the row it
   * leaves, loaded back under a clean directory, decodes to the same name,
   * number and title.
   */
  lemma RecordReloads(m: Migration, p: string, dir: string, prefix: string, lib: Library)
    requires m.DecodedFrom(p, lib.humanize)
    requires lib.join(dir, m.name) == prefix + "/" + m.name
    requires !HasNumberedRun(prefix)
    ensures WriteMigrationRecord(m).sql == InsertRecordSql
    ensures WriteMigrationRecord(m).params == [m.name, m.num]
    ensures var stored := WriteMigrationRecord(m).params;
            Decode(lib.join(dir, stored[0]), lib.humanize) == Some(Identity(stored[0], stored[1], m.title))
  {
    DecodeStoredName(p, dir, prefix, lib);
  }
}
