/**
 * `Migration.loadFromFilesystem`: which directory entries count as migration
 * files, the one-time CoffeeScript warning, and the sorted mapping of the
 * survivors to migrations.
 */
module Catalog {
  import opened Naming
  import opened Ordering
  import opened Migrations

  predicate EndsWith(s: string, suffix: string) {
    |suffix| <= |s| && s[|s| - |suffix|..] == suffix
  }

  /**
   * `filesRegEx`: `/\.js$/`, or `/\.(js|coffee)$/` once the CoffeeScript
   * compiler has registered itself.
   */
  predicate IsMigrationFile(file: string, coffeeSupported: bool) {
    EndsWith(file, ".js") || (coffeeSupported && EndsWith(file, ".coffee"))
  }

  /** The entries `files.filter(...)` keeps, in directory order. */
  function Recognized(files: seq<string>, coffeeSupported: bool): seq<string>
    decreases |files|
  {
    if files == [] then []
    else
      var last := files[|files| - 1];
      Recognized(files[..|files| - 1], coffeeSupported)
        + (if IsMigrationFile(last, coffeeSupported) then [last] else [])
  }

  /** The scan warns that CoffeeScript is not installed. */
  predicate WarnsAboutCoffee(files: seq<string>, coffeeSupported: bool) {
    !coffeeSupported && exists i :: 0 <= i < |files| && EndsWith(files[i], ".coffee")
  }

  /**
   * The filter keeps exactly the migration files, each as often as the listing
   * holds it, and drops every other entry.
   */
  lemma {:induction false} RecognizedExactly(files: seq<string>, coffeeSupported: bool)
    ensures forall f :: multiset(Recognized(files, coffeeSupported))[f]
                          == if IsMigrationFile(f, coffeeSupported) then multiset(files)[f] else 0
    ensures forall f :: f in Recognized(files, coffeeSupported) <==> f in files && IsMigrationFile(f, coffeeSupported)
    decreases |files|
  {
    if files != [] {
      var init, last := files[..|files| - 1], files[|files| - 1];
      RecognizedExactly(init, coffeeSupported);
      assert files == init + [last];
      assert multiset(files) == multiset(init) + multiset{last};
    }
  }

  /**
   * The filter loop: `coffeeWarn` (here `mayWarn`) lets the warning out at
   * most once; what is kept is decided by `filesRegEx` alone.
   */
  method FilterEntries(files: seq<string>, coffeeSupported: bool) returns (kept: seq<string>, warnings: nat)
    ensures kept == Recognized(files, coffeeSupported)
    ensures warnings == if WarnsAboutCoffee(files, coffeeSupported) then 1 else 0
  {
    var mayWarn := true;
    kept, warnings := [], 0;
    for i := 0 to |files|
      invariant kept == Recognized(files[..i], coffeeSupported)
      invariant warnings == if WarnsAboutCoffee(files[..i], coffeeSupported) then 1 else 0
      invariant mayWarn <==> warnings == 0
    {
      var file := files[i];
      assert files[..i + 1][..i] == files[..i];
      if mayWarn && !coffeeSupported && EndsWith(file, ".coffee") {
        warnings := warnings + 1;
        mayWarn := false;
      }
      if IsMigrationFile(file, coffeeSupported) {
        kept := kept + [file];
      }
      assert WarnsAboutCoffee(files[..i + 1], coffeeSupported)
         <==> WarnsAboutCoffee(files[..i], coffeeSupported) || (!coffeeSupported && EndsWith(file, ".coffee"));
    }
    assert files[..|files|] == files;
  }

  /** The directory joined with each name, in order. */
  function JoinAll(dir: string, names: seq<string>, join: (string, string) -> string): seq<string> {
    seq(|names|, i requires 0 <= i < |names| => join(dir, names[i]))
  }

  /** The names of the catalog: the kept entries, sorted. */
  function CatalogNames(files: seq<string>, coffeeSupported: bool): seq<string> {
    SortNames(Recognized(files, coffeeSupported))
  }

  /**
   * The catalog lists every migration file of the directory, as often as the
   * listing holds it, in non-decreasing lexicographic order, and nothing else.
   */
  lemma CatalogNamesSpec(files: seq<string>, coffeeSupported: bool)
    ensures IsSorted(CatalogNames(files, coffeeSupported))
    ensures forall f :: multiset(CatalogNames(files, coffeeSupported))[f]
                          == if IsMigrationFile(f, coffeeSupported) then multiset(files)[f] else 0
    ensures |CatalogNames(files, coffeeSupported)| == |Recognized(files, coffeeSupported)|
  {
    RecognizedExactly(files, coffeeSupported);
    var r := Recognized(files, coffeeSupported);
    assert |multiset(SortNames(r))| == |multiset(r)|;
  }

  /**
   * `Migration.loadFromFilesystem` given the result of `fs.readdir`: an error
   * is passed on; otherwise the kept entries are sorted and each becomes the
   * migration at `join(dir, file)`.
   */
  method LoadFromFilesystem(dir: string, listing: Result<seq<string>>, coffeeSupported: bool, lib: Library)
    returns (r: Result<seq<Migration>>, warnings: nat)
    ensures listing.Err? ==> r == Err(listing.error) && warnings == 0
    ensures listing.Ok? ==> warnings == if WarnsAboutCoffee(listing.value, coffeeSupported) then 1 else 0
    ensures listing.Ok? ==>
              Loaded(r, JoinAll(dir, CatalogNames(listing.value, coffeeSupported), lib.join), lib.humanize)
  {
    if listing.Err? {
      r, warnings := Err(listing.error), 0;
      return;
    }
    var files;
    files, warnings := FilterEntries(listing.value, coffeeSupported);
    var sorted := SortNames(files);
    r := MapPaths(JoinAll(dir, sorted, lib.join), lib);
  }
}
