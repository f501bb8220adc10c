# barrel's Diesel integration, modelled in Dafny

barrel lets a developer write a database migration as Rust code against a
schema builder (an `up` function and a `down` function in a `mod.rs` file)
instead of as SQL. Its Diesel integration (`src/integrations/diesel.rs`)
turns such a migration directory into a Diesel `Migration`. It works in
these steps:

- It checks that `<dir>/mod.rs` exists.
- It writes a throwaway cargo project whose `main.rs` `include!`s that file.
- It runs the project with `cargo run`.
- It splits the program's standard output into an "up" line and a "down" line.
- It builds a `BarrelMigration(path, version, up, down)` descriptor. Diesel
  then calls the descriptor's `file_path`, `version`, `run` and `revert`.

The model is four modules:

- `Wrappers` (`wrappers.dfy`): `Option`, `Result` and `Outcome`.
- `RustStr` (`rust_str.dfy`): the parts of Rust's `str` the integration uses.
  These are `split` on one character (`Split`, with `JoinWith` as its
  inverse) and `replace(c, "")` (`RemoveAll`).
- `RustPath` (`rust_path.dfy`): Unix `Path::file_name` (`FileName`) and
  `Path::join` (`Join`), on paths held as text.
- `Diesel` (`diesel.dfy`): the integration itself.
  - `VersionFromPath` models `version_from_path`.
  - `EntryPoint` is the generated `main.rs` text.
  - `ParseOutput` is the stdout split.
  - `RunBarrelMigration`, `RunBarrelMigrationWrapper` and `MigrationFrom`
    model the pipeline.
  - The `BarrelMigration` datatype has the `Migration` accessors and the
    `Run`/`Revert` methods.
  - `Connection` is a class standing for the caller's database connection.
    It keeps a log of executed batches, plus a fixed map of the batches it
    rejects, each with its error.
- `DieselExamples` (`diesel_examples.dfy`): concrete instances.

The outside world enters as parameters:

- `pathExists: string -> bool` says whether a path exists, as a file or as a
  directory (the source asks `Path::exists`).
- `cargo: string -> Option<string>` maps the text of the generated `main.rs`
  to what `cargo run` prints on standard output. `None` means the process
  could not be launched.

The panics the model covers are `Failure(Panic)` values:

- the `expect` in `version_from_path` (`VersionFailed(FileNameMissing)`);
- the `expect` on launching `cargo` (`CargoNotLaunched`);
- the out-of-bounds `vec[1]` on the output (`MissingDownLine`).

The `unwrap`s on writing the temporary project are not modelled (see
"Left out"). A successful run is `Success`.

Where the code behaves in ways a reader may not expect, the model follows the
code:

- `migration_from` passes the `…/mod.rs` path to the wrapper, and the wrapper
  resolves the version from that same path. So every descriptor has version
  `"mod.rs"`, not the date prefix of the directory name
  (`MigrationFromOutcome`, `DatedDirectoryDescriptor`).
  `VersionFromPath` applied to the directory itself gives the date
  (`VersionOfDatedDirectory`).
- The version can be empty. For example, `dir/_init` has version `""`: this
  is `VersionIgnoresSuffix` with an empty prefix.
- The exit status of `cargo run` is never examined. Whatever reached
  standard output is parsed.
- Output without a newline is not reported as an error value. Indexing
  `vec[1]` panics, which is modelled as `Failure(MissingDownLine)`.
- Output is not required to have exactly two lines. Any output with at least
  one newline is accepted, and everything after the second line is ignored.
- A path without a file name makes `version_from_path` panic through
  `expect`, rather than return an error.

## Model

| member | source | states |
|---|---|---|
| `RustStr.Split` | src/integrations/diesel.rs:68-69 | `split` always yields at least one fragment, possibly empty; no fragment contains the separator; there are two or more fragments exactly when the separator occurs |
| `RustStr.JoinWithSplit` | src/integrations/diesel.rs:153 | joining the fragments of a split with the separator gives the original text back |
| `RustStr.SplitJoinWith` | src/integrations/diesel.rs:153 | splitting separator-free fragments joined with the separator gives exactly those fragments back |
| `RustStr.SplitAround` | src/integrations/diesel.rs:153 | splitting `a + sep + b` gives the fragments of `a` followed by those of `b` |
| `RustStr.TextBefore` | src/integrations/diesel.rs:68-69 | the text before the first separator is a separator-free prefix, followed in the input by the separator or by the end |
| `RustStr.RemoveAll` | src/integrations/diesel.rs:70 | `replace('-', "")` leaves no `-` and never lengthens the text |
| `RustStr.RemoveAllAppend` | src/integrations/diesel.rs:70 | deleting `-` works piece by piece: on a concatenation it is the concatenation of the results |
| `RustStr.RemoveAllAbsent` | src/integrations/diesel.rs:70 | text without `-` is left unchanged |
| `RustStr.IndexOfAfterFree` | src/integrations/diesel.rs:68-69 | in `a + sep + b` with `a` free of the separator, the first separator is at `|a|` |
| `RustPath.FileName` | src/integrations/diesel.rs:65-66 | a file name, when there is one, is a non-empty normal component: not `.`, not `..`, and free of `/` |
| `RustPath.Join` | src/integrations/diesel.rs:58-59 | an absolute name replaces the base; a relative name is appended to the base, directly or after one `/`, so the result starts with the base and ends with the name |
| `RustPath.JoinFileName` | src/integrations/diesel.rs:58-59 | joining a normal name onto any directory gives a path whose file name is that name |
| `RustPath.FileNameOfRoot` | src/integrations/diesel.rs:65-66 | `/` and the empty path have no file name |
| `RustPath.FileNameOfParentDir` | src/integrations/diesel.rs:65-66 | joining `..` onto any directory gives a path with no file name |
| `Diesel.VersionFromPath` | src/integrations/diesel.rs:64-72 | fails exactly when the path has no file name, and then only with that error (the `Err(())` arm is never taken); otherwise the version is the file-name text before the first `_` with every `-` removed, so it contains neither `_` nor `-` |
| `Diesel.VersionIgnoresSuffix` | src/integrations/diesel.rs:64-71 | the version of `dir/<prefix>_<suffix>` is `prefix` without its `-`s, whatever the suffix |
| `Diesel.VersionWithoutUnderscore` | src/integrations/diesel.rs:64-71 | a file name without `_` is its own version, minus its `-`s |
| `Diesel.VersionOfPlainName` | src/integrations/diesel.rs:64-71 | a file name with neither `_` nor `-` is its own version |
| `Diesel.VersionOfMigrationFile` | src/integrations/diesel.rs:59-76 | the version of every `…/mod.rs` path is `"mod.rs"` |
| `Diesel.IncludedPath` | src/integrations/diesel.rs:110-133 | a path read back from a text is exactly what lies between the fixed header and footer: the text is header, path, footer |
| `Diesel.EntryPoint` | src/integrations/diesel.rs:110-133 | the user path is spliced into the template verbatim and can be read back unchanged from the generated text |
| `Diesel.EntryPointInjective` | src/integrations/diesel.rs:110-133 | different user paths give different generated programs |
| `Diesel.EntryPointLayout` | src/integrations/diesel.rs:113-131 | the generated text contains `include!("` immediately followed by the unescaped path and `");`; after it comes the block that builds and prints `up`, and after that the block that builds and prints `down` |
| `Diesel.FooterShape` | src/integrations/diesel.rs:120-131 | in the text after the path, the include close comes first, then the up block, then the down block |
| `Diesel.EmittedStdout` | src/integrations/diesel.rs:125-129 | the generated program prints the up rendering and the down rendering, each followed by a newline, so its output splits on newlines into the up lines, then the down lines, then an empty fragment |
| `Diesel.ParseOutput` | src/integrations/diesel.rs:152-155 | fails (with the `vec[1]` panic) exactly when the output has no newline; otherwise up and down contain no newline, the output starts with `up + "\n" + down`, and what follows is either nothing or a newline, so up is the text before the first newline and down the text up to the second |
| `Diesel.ParseLeadingLines` | src/integrations/diesel.rs:153-155 | output beginning with two newline-free lines parses into exactly those lines, whatever follows the second newline |
| `Diesel.ParseEmitted` | src/integrations/diesel.rs:122-155 | the two lines the generated program prints parse back into the up and down renderings, provided neither contains a newline |
| `Diesel.ParseSplitsMultilineUp` | src/integrations/diesel.rs:125-155 | an up rendering that contains a newline is not recovered by the parser |
| `Diesel.Connection.BatchExecute` | src/integrations/diesel.rs:29 | a rejected batch returns its error and executes nothing; any other batch is appended to the log |
| `Diesel.BarrelMigration.Run` | src/integrations/diesel.rs:28-31 | executes exactly the up batch, once; a connection error comes back as a `QueryError` carrying it, and nothing is executed |
| `Diesel.BarrelMigration.Revert` | src/integrations/diesel.rs:33-36 | executes exactly the down batch, once; a connection error comes back as a `QueryError` carrying it, and nothing is executed |
| `Diesel.ApplyThenRevert` | src/integrations/diesel.rs:28-36 | applying then reverting logs the up batch and then the down batch; an error stops the sequence at that point, and the revert is then not attempted (`None`) |
| `Diesel.RunBarrelMigration` | src/integrations/diesel.rs:80-157 | fails with `CargoNotLaunched` exactly when cargo cannot be launched; succeeds exactly when the program's output contains a newline, and then up is the output's text before the first newline and down the text before the next one |
| `Diesel.RunBarrelMigrationWrapper` | src/integrations/diesel.rs:74-78 | succeeds exactly when the run succeeds and the path has a file name; a failed run's panic is passed on unchanged; a descriptor reports the given path, the version resolved from it and the run's up and down SQL |
| `Diesel.MigrationFrom` | src/integrations/diesel.rs:57-62 | no migration exactly when `dir/mod.rs` does not exist; otherwise fails exactly when the run fails, and a descriptor carries the path `dir/mod.rs` and the version `"mod.rs"` |
| `Diesel.MigrationFromOutcome` | src/integrations/diesel.rs:57-78 | returns no migration exactly when `dir/mod.rs` does not exist; fails when cargo cannot be launched or prints no newline; otherwise returns `BarrelMigration(dir/mod.rs, "mod.rs", up, down)` with up and down parsed from the program's output; version resolution never fails here |
| `Diesel.MigrationFromAccessors` | src/integrations/diesel.rs:19-26 | every descriptor `migration_from` produces reports `Some(dir/mod.rs)` as its file path and `"mod.rs"` as its version |
| `Diesel.MigrationFromWellBehavedBuild` | src/integrations/diesel.rs:74-157 | when the generated program prints two newline-free renderings, the descriptor carries exactly those as its up and down SQL |
| `DieselExamples.VersionWithoutFileName` | src/integrations/diesel.rs:65-66 | `/`, the empty path and `lib/..` fail version resolution with a missing file name |
| `DieselExamples.VersionOfDatedDirectory` | src/integrations/diesel.rs:64-71 | a directory named `<digits>_<slug>` has its digits as version, e.g. `migrations/20240101120000_create_users` resolves to `20240101120000` |
| `DieselExamples.ParseExamples` | src/integrations/diesel.rs:153-155 | `""` and `"a"` have no down line; `"a\n"` parses to up `"a"` and down `""` |
| `DieselExamples.DatedDirectoryDescriptor` | src/integrations/diesel.rs:57-77 | for a dated directory, resolving the directory's name gives the date, yet the descriptor `migration_from` builds carries `"mod.rs"` |

## Left out

- `generate_initial` (lines 40-54) is not modelled. It writes a stub file and prints a message, and it has no logic beyond file I/O.
- Creating the temporary directory, `create_dir_all` and writing the files (lines 84-107, 110-135) are not modelled. The model keeps only the text of `main.rs` (`EntryPoint`). An I/O failure there would panic through `unwrap`, and the model has no panic value for it.
- The `Cargo.toml` text (lines 91-101) is not modelled. It is a constant with no logic.
- The `cargo run` child process (lines 137-150) is the `cargo` parameter. Whether it runs directly (Windows) or through `sh -c` (elsewhere) makes no difference to the model.
- `String::from_utf8_lossy`, `to_string_lossy` and `into_string().unwrap()` (lines 67, 109, 152) are not modelled. Paths and output are taken as already-decoded text, so invalid UTF-8 (replaced or panicking in the source) is not modelled.
- `RustPath.FileName`, `RustPath.Join`: model Unix paths only; Windows prefixes and `\` separators are not modelled.
- `Diesel.Connection`: stands for Diesel's `SimpleConnection::batch_execute` (lines 29, 34). Which batches the database rejects is fixed when the connection is created, and a rejected batch is taken to execute nothing.
- `Diesel.BarrelMigration.FilePath` and `Diesel.BarrelMigration.Version` (lines 20-26) return the stored fields. Their contract is stated for the descriptors `migration_from` builds (`MigrationFromAccessors`).
- Boxing the descriptor as a `Box<Migration>` trait object is not modelled. The descriptor is a plain datatype value.
