# Migration identity and discovery, modelled in Dafny

This project models `lib/migration.js` of node-db-migrate. That file defines a
migration's identity and how migrations are found:

- **Name codec.** `formatName` builds the canonical name `num + "-" + dasherize(title)`.
  `Migration.parseName` pulls the name back out of a path with the regular
  expression `(\d+-[^.]+)`. The one-argument constructor splits that name with
  `(\d+)-([^\.]+)` into the number and a slug, and humanises the slug into the title.
- **Filesystem catalog.** `loadFromFilesystem` keeps the directory entries that end
  in `.js` (or also `.coffee` when CoffeeScript is available). It warns once when
  `.coffee` files are present but unsupported. It sorts the kept names and builds
  the migration at `join(dir, file)` for each.
- **Applied state.** `loadFromDatabase` builds one migration per row of
  `SELECT * FROM migrations ORDER BY name DESC`, at `join(dir, row.name)`.
  `writeMigrationRecord` inserts `[name, num]`.

Modules, one per component:

- `Naming` (`naming.dfy`): holds the codec. The regex match is a leftmost search
  (`LeftmostMatch`) over greedy runs (`DigitRun`, `NonDotRun`). Lemmas prove that
  this is exactly the leftmost-longest match of the regular language
  `\d+-[^.]+` (`InPattern`). Further lemmas give the round trips. The
  collaborators `inflection.dasherize`, `inflection.humanize(_, true)` and
  `path.join` are total functions held in a `Library` value. They are not
  interpreted. Each lemma states only the assumptions it needs about them.
- `Ordering` (`ordering.dfy`): holds the default `Array.prototype.sort()` order
  on strings. It also proves that the sorted permutation is unique.
- `Migrations` (`migration.dfy`): holds the `Migration` class. Its fields are
  `title`, `num`, `name` and `path`, set by two constructors. This module also
  holds the path-to-migration mapping shared by both loaders, and the record write.
- `Catalog` (`catalog.dfy`): holds the filter loop and `LoadFromFilesystem`.
- `AppliedState` (`applied.dfy`): holds `LoadFromDatabase`.

Inputs that come from I/O are parameters:

- the `fs.readdir` result is a `Result<seq<string>>`;
- the `driver.all` result is a `Result<seq<Row>>`;
- whether CoffeeScript registered itself is the boolean `coffeeSupported`;
- `log.warn` calls are counted in the out-parameter `warnings`.

A path is "clean" when it has no `\d+-` in it (`HasNumberedRun` is false). The
encode/decode lemmas assume the directory part of the path is clean. Without
that assumption, the unanchored match can start inside the directory.
`ExampleDirectoryCapture` shows this: `a-1-b/2-c.js` decodes to the name
`1-b/2-c`.

Three behaviours of `lib/migration.js` worth knowing:

- The number is not zero-padded. `formatName` concatenates `num` exactly as given,
  so number `7` and title `Add Users Table` give `"7-" + dasherize("Add Users Table")`.
- The catalog is sorted by file name, lexicographically, not by sequence number.
- A path the decoder rejects is not skipped. The constructor throws, and the whole
  load fails. Here that is `Err(MalformedName(path))` for the first such path.

The file computes no pending or rollback sets, so none are modelled.

## Model

| member | source | states |
|---|---|---|
| `Naming.DigitRun` | lib/migration.js:87 | the greedy `\d+` at a position takes the longest run of ASCII digits there: all digits, stopping at a non-digit or the end |
| `Naming.NonDotRun` | lib/migration.js:87 | the greedy `[^.]+` takes the longest run of non-dot characters, stopping at a `.` or the end |
| `Naming.LeftmostMatch` | lib/migration.js:87 | the unanchored match starts at the first position where `\d+-[^.]+` matches; no earlier position matches, and `None` means no position matches |
| `Naming.ParseNameSpec` | lib/migration.js:86-89 | `parseName` fails exactly when no substring is in `\d+-[^.]+`; otherwise it returns the leftmost-longest such substring |
| `Naming.ParsedNameShape` | lib/migration.js:86-89 | a parsed name is a substring of the path, of the form digits, `-`, then a non-empty dot-free slug |
| `Naming.SplitNameRoundTrip` | lib/migration.js:60-62 | the constructor's second match splits `D-S` (D digits, S non-empty and dot-free) into exactly `num == D` and slug `== S` |
| `Naming.ParsedNameSplits` | lib/migration.js:58-62 | once `parseName` succeeds, the second match cannot be null, and `num + "-" + slug` is the parsed name again |
| `Naming.ParseNameUnderDir` | lib/migration.js:86-89 | `dir/D-S<ext>` with a clean `dir` and an extension that is empty or starts with `.` parses to `D-S` |
| `Naming.ParsedNameReparses` | lib/migration.js:86-89 | a parsed name, put back under a clean directory, parses to itself |
| `Naming.EncodeThenDecode` | lib/migration.js:22-28 | for a digit `num` and a non-empty dot-free dasherised title, `dir/formatName(title, num)<ext>` decodes to the same name and number, with title `humanize(dasherize(title))` |
| `Naming.FormatPathDecodes` | lib/migration.js:51-55 | the path the three-argument constructor computes decodes back to its name and number, when `path.join` yields `prefix + "/" + name` with a clean prefix |
| `Naming.DecodeStoredName` | lib/migration.js:114-116 | a decoded migration's name, joined back under a clean directory, decodes to the same name, number and title |
| `Naming.ExampleParse` | lib/migration.js:86-89 | `db/12-users.js` parses to `12-users` |
| `Naming.ExampleDirectoryCapture` | lib/migration.js:87 | `a-1-b/2-c.js` parses to `1-b/2-c`, a match that starts inside the directory |
| `Ordering.SortNames` | lib/migration.js:103 | `files.sort()` gives a lexicographically non-decreasing permutation of its input |
| `Ordering.SortedUnique` | lib/migration.js:103 | two sorted permutations of the same names are equal, so the catalog order does not depend on the sorting algorithm |
| `Migrations.Migration.constructor` | lib/migration.js:51-55 | sets `title` and `num` as given, `name` to `formatName(title, num)` and `path` to `join(dir, name)` |
| `Migrations.Migration.FromPath` | lib/migration.js:56-63 | sets `path`, `name` to the parsed name, `num` and `title` to the split number and the humanised slug |
| `Migrations.NewFromPath` | lib/migration.js:56-63 | `new Migration(path)` fails with `MalformedName(path)` exactly when `parseName` finds no match; otherwise it gives a fresh migration decoded from the path |
| `Migrations.MapPaths` | lib/migration.js:103-105 | gives one migration per path, in order, each decoded from its path; or the error for the first path that does not decode |
| `Migrations.RecordReloads` | lib/migration.js:30-34 | the record write runs the insert with `[name, num]` bound in that order; that row, loaded back under a clean directory, decodes to the same name, number and title |
| `Catalog.RecognizedExactly` | lib/migration.js:96-102 | the filter keeps exactly the entries ending in `.js`, or `.js`/`.coffee` when CoffeeScript is supported, each as often as it is listed; all other entries are dropped |
| `Catalog.FilterEntries` | lib/migration.js:95-102 | the loop keeps exactly the filtered entries; it warns at most once, and does so exactly when CoffeeScript is unsupported and some entry ends in `.coffee`; the warning does not change what is kept |
| `Catalog.CatalogNamesSpec` | lib/migration.js:96-105 | the catalog names are sorted, are the migration files of the listing with their multiplicities, and are as many as the filtered entries |
| `Catalog.LoadFromFilesystem` | lib/migration.js:91-108 | a `readdir` error is passed on with no warning; otherwise element `i` is the migration at `join(dir, sorted[i])` and the warning count is as for the filter |
| `AppliedState.LoadFromDatabase` | lib/migration.js:110-119 | the query issued is `SELECT * FROM migrations ORDER BY name DESC` with no parameters; a query error is passed on with no migrations; otherwise element `i` is the migration at `join(dir, rows[i].name)`, same length and order as the rows |
| `AppliedState.LoadedRowsKeepNames` | lib/migration.js:114-116 | when the stored names are canonical and the directory part is clean, the load succeeds and migration `i` carries the name of row `i` |

## Left out

- I/O is not modelled: `fs.readdir`, `driver.all`, `db._runSql` and the asynchronous callbacks. Their results and errors are inputs, and the statement `writeMigrationRecord` would run is its result.
- `Migration.prototype.write` is not modelled, because it only calls `fs.writeFile` with the fixed template.
- `_up`, `_down`, `up` and `down` are not modelled. They load and run foreign code through `require(this.path)`.
- The detection of CoffeeScript at load time (`require('coffee-script')`, `register()`) is not modelled. It is process-wide feature detection, and the model takes its outcome as the parameter `coffeeSupported`.
- The text written by `log.verbose` and `log.warn` is not modelled; only the number of warnings is.
- The internals of `inflection.dasherize`, `inflection.humanize` and the normalisation done by `path.join` are not modelled. They live in files that are not part of this model.
- Migrations.Migration.FromPath: requires the name match to succeed. The `TypeError` the JavaScript constructor throws otherwise is modelled by `Migrations.NewFromPath` as `Err(MalformedName(path))`.
- Catalog.LoadFromFilesystem: a throw inside the `readdir` callback escapes the callback. The model returns it as an error result instead.
- Ordering.SortNames: compares characters as Unicode scalar values. JavaScript compares UTF-16 code units, and the two orders differ only for characters outside the Basic Multilingual Plane.
- `num` is the decimal string here. In the JavaScript, the `num` field and the bound `version` parameter keep the type the caller gave; only the name built by `formatName` turns it into a string.
