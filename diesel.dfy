/** The Diesel integration of barrel (src/integrations/diesel.rs): a migration
    directory holding a `mod.rs` written against barrel's schema builder is
    turned into a Diesel migration by compiling and running a throwaway
    program whose standard output is the "up" SQL and the "down" SQL.

    The filesystem and the `cargo run` child process are parameters:
    `pathExists` says which paths exist (as files or directories) and
    `cargo` maps the text of the generated `main.rs` to the standard output
    of building and running it (`None` when the process cannot be launched).
    The panics of version resolution, of launching cargo and of reading the
    second output line are `Failure` values here; the panics of writing the
    temporary project are not modelled. */
module Diesel {
  import opened Wrappers
  import opened RustStr
  import opened RustPath

  /** The one logic file a migration directory is expected to hold. */
  const MigrationFile: string := "mod.rs"

  /** Why version resolution gives up: the `expect` on a path without a file
      name (a panic), or the `Err(())` returned when the split has no first
      fragment (the caller unwraps it). */
  datatype VersionError = FileNameMissing(path: string) | NoFirstFragment

  /** The places where the pipeline panics. */
  datatype Panic =
    | VersionFailed(cause: VersionError)     // version resolution panics (`FileNameMissing`) or its `Err(())` is unwrapped (`NoFirstFragment`)
    | CargoNotLaunched                       // the cargo process cannot be started
    | MissingDownLine                        // the second output fragment is indexed but absent

  /** `RunMigrationsError::QueryError`, which `try!` makes of a connection error. */
  datatype RunMigrationsError = QueryError(message: string)

  // ---------------------------------------------------------------------
  // Version resolution
  // ---------------------------------------------------------------------

  /** `version_from_path`: the file name's text before the first `_`, with
      every `-` deleted. It fails only for a path without a file name; the
      `Err(())` arm cannot be taken, because a split always has a first
      fragment. */
  function VersionFromPath(p: string): (r: Result<string, VersionError>)
    ensures r.Failure? <==> FileName(p).None?
    ensures r.Failure? ==> r.error == FileNameMissing(p)
    ensures r.Success? ==> r.value == RemoveAll(TextBefore(FileName(p).value, '_'), '-')
    ensures r.Success? ==> '-' !in r.value && '_' !in r.value
  {
    match FileName(p)
    case None => Failure(FileNameMissing(p))
    case Some(name) =>
      var fragments := Split(name, '_');
      if |fragments| == 0 then Failure(NoFirstFragment)
      else
        SplitFirst(name, '_');
        RemoveAllKeepsAbsent(fragments[0], '-', '_');
        Success(RemoveAll(fragments[0], '-'))
  }

  /** The version of a path depends only on its file name. */
  lemma VersionOfFileName(p: string, name: string)
    requires FileName(p) == Some(name)
    ensures VersionFromPath(p) == Success(RemoveAll(TextBefore(name, '_'), '-'))
  {
  }

  /** Deleting characters does not introduce any. */
  lemma {:induction false} RemoveAllKeepsAbsent(s: string, c: char, x: char)
    requires x !in s
    ensures x !in RemoveAll(s, c)
  {
    if |s| > 0 {
      RemoveAllKeepsAbsent(s[1..], c, x);
    }
  }

  /** Everything from the first `_` of the file name on is discarded: the
      version of `dir/<prefix>_<suffix>` is `prefix` without its `-`s,
      whatever `suffix` is. */
  lemma {:induction false} VersionIgnoresSuffix(dir: string, prefix: string, suffix: string)
    requires '_' !in prefix && '/' !in prefix && '/' !in suffix
    ensures VersionFromPath(Join(dir, prefix + "_" + suffix)) == Success(RemoveAll(prefix, '-'))
  {
    var name := prefix + "_" + suffix;
    assert FileName(Join(dir, name)) == Some(name) by {
      assert name[|prefix|] == '_';
      assert name != "." && name != ".." && '/' !in name;
      JoinFileName(dir, name);
    }
    assert TextBefore(name, '_') == prefix by {
      assert name == prefix + ['_'] + suffix;
      IndexOfAfterFree(prefix, '_', suffix);
      assert name[..|prefix|] == prefix;
    }
    VersionOfFileName(Join(dir, name), name);
  }

  /** A file name without `_` is its own version, minus its `-`s. */
  lemma VersionWithoutUnderscore(dir: string, name: string)
    requires name != "" && name != "." && name != ".." && '/' !in name && '_' !in name
    ensures VersionFromPath(Join(dir, name)) == Success(RemoveAll(name, '-'))
  {
    JoinFileName(dir, name);
    VersionOfFileName(Join(dir, name), name);
  }

  /** A plain name, with neither `_` nor `-`, is its own version. */
  lemma VersionOfPlainName(dir: string, name: string)
    requires name != "" && name != "." && name != ".." && '/' !in name && '_' !in name && '-' !in name
    ensures VersionFromPath(Join(dir, name)) == Success(name)
  {
    VersionWithoutUnderscore(dir, name);
    RemoveAllAbsent(name, '-');
  }

  /** The version of any `…/mod.rs` path is the text "mod.rs". */
  lemma VersionOfMigrationFile(dir: string)
    ensures VersionFromPath(Join(dir, MigrationFile)) == Success("mod.rs")
  {
    VersionOfPlainName(dir, MigrationFile);
  }

  // ---------------------------------------------------------------------
  // The generated entry point (main.rs)
  // ---------------------------------------------------------------------

  /** The opening lines of the generated `main.rs`. */
  const Preamble: string :=
    "//! This file is auto generated by barrel\n"
    + "extern crate barrel;\n"
    + "use barrel::*;\n"
    + "\n"
    + "// FIXME: Make the backend configurable\n"
    + "use barrel::backend::Pg;\n"
    + "\n"

  const IncludeOpen: string := "include!(\""
  const IncludeClose: string := "\");\n"
  const MainOpen: string := "\nfn main() {\n"

  /** Builds the "up" migration and prints its Postgres rendering. */
  const UpBlock: string :=
    "    let mut m_up = Migration::new();\n"
    + "    up(&mut m_up);\n"
    + "    println!(\"{}\", m_up.make::<Pg>());\n"

  /** Builds the "down" migration and prints its Postgres rendering. */
  const DownBlock: string :=
    "    let mut m_down = Migration::new();\n"
    + "    down(&mut m_down);\n"
    + "    println!(\"{}\", m_down.make::<Pg>());\n"

  /** The text of the generated `main.rs` before the spliced-in path. */
  const EntryHeader: string := Preamble + IncludeOpen

  /** The text of the generated `main.rs` after the spliced-in path. */
  const EntryFooter: string := IncludeClose + MainOpen + UpBlock + "\n" + DownBlock + "}\n"

  /** The generated `main.rs` for the logic file at `userMigration`, with
      the path written into `include!("…")` as it is, without escaping. */
  function EntryPoint(userMigration: string): (r: string)
    ensures IncludedPath(r) == Some(userMigration)
  {
    var t := EntryHeader + userMigration + EntryFooter;
    assert t[..|EntryHeader|] == EntryHeader;
    assert t[|t| - |EntryFooter|..] == EntryFooter;
    assert t[|EntryHeader|..|t| - |EntryFooter|] == userMigration;
    t
  }

  /** `t` holds `w` at offset `i`. */
  predicate OccursAt(t: string, i: nat, w: string)
  {
    i + |w| <= |t| && t[i..i + |w|] == w
  }

  lemma OccursAtEnd(a: string, w: string)
    ensures OccursAt(a + w, |a|, w)
  {
    assert (a + w)[|a|..|a| + |w|] == w;
  }

  lemma OccursAtAppend(t: string, i: nat, w: string, b: string)
    requires OccursAt(t, i, w)
    ensures OccursAt(t + b, i, w)
  {
    assert (t + b)[i..i + |w|] == t[i..i + |w|];
  }

  lemma OccursAtShift(a: string, t: string, i: nat, w: string)
    requires OccursAt(t, i, w)
    ensures OccursAt(a + t, |a| + i, w)
  {
    assert (a + t)[|a| + i..|a| + i + |w|] == t[i..i + |w|];
  }

  /** Text that starts with `h` and ends with `f`, with room for both, is
      `h`, then what lies between, then `f`. */
  lemma Framed(text: string, h: string, f: string)
    requires |h| + |f| <= |text| && text[..|h|] == h && text[|text| - |f|..] == f
    ensures text == h + text[|h|..|text| - |f|] + f
  {
    assert text == text[..|h|] + text[|h|..|text| - |f|] + text[|text| - |f|..];
  }

  /** Reads back the path spliced into a generated entry point. */
  function IncludedPath(text: string): (r: Option<string>)
    ensures r.Some? ==> text == EntryHeader + r.value + EntryFooter
  {
    if |text| >= |EntryHeader| + |EntryFooter|
       && text[..|EntryHeader|] == EntryHeader
       && text[|text| - |EntryFooter|..] == EntryFooter
    then
      Framed(text, EntryHeader, EntryFooter);
      Some(text[|EntryHeader|..|text| - |EntryFooter|])
    else None
  }

  /** Distinct paths give distinct generated programs. */
  lemma EntryPointInjective(p: string, q: string)
    requires EntryPoint(p) == EntryPoint(q)
    ensures p == q
  {
    assert IncludedPath(EntryPoint(p)) == Some(p);
    assert IncludedPath(EntryPoint(q)) == Some(q);
  }

  /** Where the include directive's close, the up block and the down block
      sit in text shaped like the part of the entry point after the path. */
  lemma FooterShape(close: string, open: string, upBlock: string, downBlock: string)
    ensures var footer := close + open + upBlock + "\n" + downBlock + "}\n";
      && OccursAt(footer, 0, close)
      && OccursAt(footer, |close| + |open|, upBlock)
      && OccursAt(footer, |close| + |open| + |upBlock| + 1, downBlock)
  {
    var a := close + open;
    var b := a + upBlock + "\n";
    var footer := b + downBlock + "}\n";
    OccursAtEnd([], close);
    assert [] + close == close;
    OccursAtAppend(close, 0, close, open);
    OccursAtAppend(a, 0, close, upBlock);
    OccursAtAppend(a + upBlock, 0, close, "\n");
    OccursAtAppend(b, 0, close, downBlock);
    OccursAtAppend(b + downBlock, 0, close, "}\n");
    OccursAtEnd(a, upBlock);
    OccursAtAppend(a + upBlock, |a|, upBlock, "\n");
    OccursAtAppend(b, |a|, upBlock, downBlock);
    OccursAtAppend(b + downBlock, |a|, upBlock, "}\n");
    OccursAtEnd(b, downBlock);
    OccursAtAppend(b + downBlock, |b|, downBlock, "}\n");
  }

  /** The generated program includes the user file as `include!("<p>");`,
      with `p` unescaped, then builds and prints "up", then builds and
      prints "down". */
  lemma EntryPointLayout(p: string)
    ensures OccursAt(EntryPoint(p), |Preamble|, IncludeOpen)
    ensures OccursAt(EntryPoint(p), |Preamble| + |IncludeOpen|, p)
    ensures OccursAt(EntryPoint(p), |Preamble| + |IncludeOpen| + |p|, IncludeClose)
    ensures exists i, j :: |EntryHeader| + |p| + |IncludeClose| <= i
                           && i + |UpBlock| <= j
                           && OccursAt(EntryPoint(p), i, UpBlock)
                           && OccursAt(EntryPoint(p), j, DownBlock)
  {
    var front := EntryHeader + p;
    OccursAtEnd(Preamble, IncludeOpen);
    OccursAtAppend(EntryHeader, |Preamble|, IncludeOpen, p);
    OccursAtAppend(front, |Preamble|, IncludeOpen, EntryFooter);
    OccursAtEnd(EntryHeader, p);
    OccursAtAppend(front, |EntryHeader|, p, EntryFooter);
    FooterShape(IncludeClose, MainOpen, UpBlock, DownBlock);
    OccursAtShift(front, EntryFooter, 0, IncludeClose);
    var i := |IncludeClose| + |MainOpen|;
    var j := i + |UpBlock| + 1;
    OccursAtShift(front, EntryFooter, i, UpBlock);
    OccursAtShift(front, EntryFooter, j, DownBlock);
    assert OccursAt(EntryPoint(p), |front| + i, UpBlock);
    assert OccursAt(EntryPoint(p), |front| + j, DownBlock);
  }

  /** What the generated program writes to standard output when its two
      `println!` calls print `upSql` and `downSql`. */
  function EmittedStdout(upSql: string, downSql: string): (r: string)
    ensures Split(r, '\n') == Split(upSql, '\n') + Split(downSql, '\n') + [""]
  {
    var out := upSql + "\n" + downSql + "\n";
    assert out == upSql + ['\n'] + (downSql + ['\n'] + "");
    SplitAround(upSql, '\n', downSql + ['\n'] + "");
    SplitAround(downSql, '\n', "");
    assert Split("", '\n') == [""];
    out
  }

  // ---------------------------------------------------------------------
  // Output parsing
  // ---------------------------------------------------------------------

  /** `output.split("\n")`, then `vec[0]` as up and `vec[1]` as down: up is
      the text before the first newline and down the text between the first
      and the second (or to the end); the rest is ignored. Output without a
      newline has one fragment only and `vec[1]` panics. */
  function ParseOutput(out: string): (r: Result<(string, string), Panic>)
    ensures r.Failure? <==> '\n' !in out
    ensures r.Failure? ==> r.error == MissingDownLine
    ensures r.Success? ==>
      var (up, down) := r.value;
      && '\n' !in up && '\n' !in down
      && |up| + 1 + |down| <= |out|
      && out[..|up| + 1 + |down|] == up + "\n" + down
      && (|up| + 1 + |down| < |out| ==> out[|up| + 1 + |down|] == '\n')
  {
    var lines := Split(out, '\n');
    if |lines| < 2 then Failure(MissingDownLine)
    else
      SplitTail(out, '\n');
      var tail := JoinWith(lines[1..], '\n');
      assert out == lines[0] + "\n" + tail;
      assert |lines[1..]| == 1 ==> tail == lines[1];
      assert |lines[1..]| >= 2 ==> tail == lines[1] + "\n" + JoinWith(lines[2..], '\n') by {
        assert lines[1..][1..] == lines[2..];
      }
      assert out[..|lines[0]| + 1 + |lines[1]|] == lines[0] + "\n" + lines[1];
      Success((lines[0], lines[1]))
  }

  /** Parsing recovers two newline-free lines from any output that starts
      with them, whatever follows the second newline. */
  lemma ParseLeadingLines(up: string, down: string, rest: string)
    requires '\n' !in up && '\n' !in down
    ensures ParseOutput(up + "\n" + down) == Success((up, down))
    ensures ParseOutput(up + "\n" + down + "\n" + rest) == Success((up, down))
  {
    SplitAround(up, '\n', down);
    assert Split(down, '\n') == [down];
    assert up + "\n" + down == up + ['\n'] + down;
    var s := up + "\n" + down + "\n" + rest;
    assert s == up + ['\n'] + (down + ['\n'] + rest);
    SplitAround(up, '\n', down + ['\n'] + rest);
    SplitAround(down, '\n', rest);
  }

  /** The two lines the generated program prints parse back into the up and
      down SQL, provided neither rendering contains a newline. */
  lemma ParseEmitted(up: string, down: string)
    requires '\n' !in up && '\n' !in down
    ensures ParseOutput(EmittedStdout(up, down)) == Success((up, down))
  {
    ParseLeadingLines(up, down, "");
    assert EmittedStdout(up, down) == up + "\n" + down + "\n" + "";
  }

  /** The line protocol is fragile: an up rendering containing a newline is
      cut short, and what is read as down is not the down rendering. */
  lemma ParseSplitsMultilineUp(up: string, down: string)
    requires '\n' in up
    ensures ParseOutput(EmittedStdout(up, down)).Success?
    ensures ParseOutput(EmittedStdout(up, down)).value.0 != up
  {
    assert EmittedStdout(up, down)[|up|] == '\n';
  }

  // ---------------------------------------------------------------------
  // The connection and the migration descriptor
  // ---------------------------------------------------------------------

  /** Diesel's `SimpleConnection` as the migration sees it: a log of the
      batches it has executed, and the batches the database rejects, each
      with the error it reports. A rejected batch executes nothing. */
  class Connection {
    const refused: map<string, string>
    var executed: seq<string>

    constructor (refused: map<string, string>)
      ensures this.refused == refused && executed == []
    {
      this.refused := refused;
      executed := [];
    }

    /** `batch_execute`. */
    method BatchExecute(sql: string) returns (r: Outcome<string>)
      modifies this
      ensures sql in refused ==> r == Fail(refused[sql]) && executed == old(executed)
      ensures sql !in refused ==> r == Pass && executed == old(executed) + [sql]
    {
      if sql in refused {
        r := Fail(refused[sql]);
      } else {
        executed := executed + [sql];
        r := Pass;
      }
    }
  }

  /** `BarrelMigration(path, version, up, down)` with its `Migration` impl. */
  datatype BarrelMigration = BarrelMigration(path: string, version: string, up: string, down: string)
  {
    /** `file_path`: always the stored path. */
    function FilePath(): Option<string>
    {
      Some(path)
    }

    /** `version`: the stored version. */
    function Version(): string
    {
      version
    }

    /** `run`: executes the up SQL as one batch; a connection error comes
        back as a `QueryError` carrying it, and nothing else is executed. */
    method Run(conn: Connection) returns (r: Outcome<RunMigrationsError>)
      modifies conn
      ensures up in conn.refused ==> r == Fail(QueryError(conn.refused[up])) && conn.executed == old(conn.executed)
      ensures up !in conn.refused ==> r == Pass && conn.executed == old(conn.executed) + [up]
    {
      var res := conn.BatchExecute(up);
      if res.Fail? {
        r := Fail(QueryError(res.error));
      } else {
        r := Pass;
      }
    }

    /** `revert`: executes the down SQL as one batch, like `Run`. */
    method Revert(conn: Connection) returns (r: Outcome<RunMigrationsError>)
      modifies conn
      ensures down in conn.refused ==> r == Fail(QueryError(conn.refused[down])) && conn.executed == old(conn.executed)
      ensures down !in conn.refused ==> r == Pass && conn.executed == old(conn.executed) + [down]
    {
      var res := conn.BatchExecute(down);
      if res.Fail? {
        r := Fail(QueryError(res.error));
      } else {
        r := Pass;
      }
    }
  }

  /** A host applying a migration and then reverting it: the connection sees
      the up batch and then the down batch, and stops at the first error.
      `reverted` is `None` when the revert was not attempted. */
  method ApplyThenRevert(m: BarrelMigration, conn: Connection)
    returns (applied: Outcome<RunMigrationsError>, reverted: Option<Outcome<RunMigrationsError>>)
    modifies conn
    ensures m.up in conn.refused ==>
      applied == Fail(QueryError(conn.refused[m.up])) && reverted == None && conn.executed == old(conn.executed)
    ensures m.up !in conn.refused && m.down in conn.refused ==>
      applied == Pass && reverted == Some(Fail(QueryError(conn.refused[m.down])))
      && conn.executed == old(conn.executed) + [m.up]
    ensures m.up !in conn.refused && m.down !in conn.refused ==>
      applied == Pass && reverted == Some(Pass) && conn.executed == old(conn.executed) + [m.up, m.down]
  {
    reverted := None;
    applied := m.Run(conn);
    if applied.Pass? {
      var r := m.Revert(conn);
      reverted := Some(r);
    }
  }

  // ---------------------------------------------------------------------
  // The pipeline
  // ---------------------------------------------------------------------

  /** `run_barrel_migration`: writes the entry point for `migration`, runs
      it with cargo and parses what it prints. A non-zero exit status is
      not looked at: whatever reached standard output is parsed. */
  function RunBarrelMigration(migration: string, cargo: string -> Option<string>)
    : (r: Result<(string, string), Panic>)
    ensures r == Failure(CargoNotLaunched) <==> cargo(EntryPoint(migration)).None?
    ensures r.Success? <==> cargo(EntryPoint(migration)).Some? && '\n' in cargo(EntryPoint(migration)).value
    ensures r.Success? ==>
      var out := cargo(EntryPoint(migration)).value;
      && r.value.0 == TextBefore(out, '\n')
      && r.value.1 == TextBefore(out[|r.value.0| + 1..], '\n')
  {
    match cargo(EntryPoint(migration))
    case None => Failure(CargoNotLaunched)
    case Some(stdout) =>
      var parsed := ParseOutput(stdout);
      if parsed.Success? then
        var (up, down) := parsed.value;
        TextBeforeUnique(stdout, '\n', up);
        var rest := stdout[|up| + 1..];
        assert rest[..|down|] == (up + "\n" + down)[|up| + 1..];
        TextBeforeUnique(rest, '\n', down);
        parsed
      else parsed
  }

  /** `run_barrel_migration_wrapper`: runs the migration first, then
      resolves the version from the same path and builds the descriptor. */
  function RunBarrelMigrationWrapper(path: string, cargo: string -> Option<string>)
    : (r: Result<BarrelMigration, Panic>)
    ensures r.Success? <==> RunBarrelMigration(path, cargo).Success? && FileName(path).Some?
    ensures RunBarrelMigration(path, cargo).Failure? ==> r == Failure(RunBarrelMigration(path, cargo).error)
    ensures r.Success? ==>
      && r.value.FilePath() == Some(path)
      && Success(r.value.Version()) == VersionFromPath(path)
      && Success((r.value.up, r.value.down)) == RunBarrelMigration(path, cargo)
  {
    var sql :- RunBarrelMigration(path, cargo);
    match VersionFromPath(path)
    case Failure(e) => Failure(VersionFailed(e))
    case Success(version) => Success(BarrelMigration(path, version, sql.0, sql.1))
  }

  /** `migration_from`: no migration unless `<dir>/mod.rs` exists (as a file
      or a directory: the source asks `exists()`); otherwise
      the migration built from that file. */
  function MigrationFrom(dir: string, pathExists: string -> bool, cargo: string -> Option<string>)
    : (r: Option<Result<BarrelMigration, Panic>>)
    ensures r.None? <==> !pathExists(Join(dir, MigrationFile))
    ensures r.Some? ==> (r.value.Failure? <==> RunBarrelMigration(Join(dir, MigrationFile), cargo).Failure?)
    ensures r.Some? && r.value.Success? ==>
      r.value.value.path == Join(dir, MigrationFile) && r.value.value.version == "mod.rs"
  {
    VersionOfMigrationFile(dir);
    if pathExists(Join(dir, MigrationFile))
    then Some(RunBarrelMigrationWrapper(Join(dir, MigrationFile), cargo))
    else None
  }

  /** What `migration_from` gives for a directory `dir`:
      - nothing exactly when `dir/mod.rs` does not exist;
      - otherwise a descriptor whose path is `dir/mod.rs`, whose version is
        "mod.rs" (it is resolved from the `mod.rs` path, not from `dir`), and
        whose up and down SQL are what the program generated for that path
        printed;
      - or a panic, when cargo cannot be launched or prints no newline;
        version resolution never panics here. */
  lemma MigrationFromOutcome(dir: string, pathExists: string -> bool, cargo: string -> Option<string>)
    ensures var file := Join(dir, MigrationFile);
      && (MigrationFrom(dir, pathExists, cargo).None? <==> !pathExists(file))
      && (pathExists(file) && cargo(EntryPoint(file)) == None ==>
            MigrationFrom(dir, pathExists, cargo) == Some(Failure(CargoNotLaunched)))
      && (pathExists(file) && cargo(EntryPoint(file)).Some? ==>
            match ParseOutput(cargo(EntryPoint(file)).value)
            case Failure(_) => MigrationFrom(dir, pathExists, cargo) == Some(Failure(MissingDownLine))
            case Success((up, down)) =>
              MigrationFrom(dir, pathExists, cargo) == Some(Success(BarrelMigration(file, "mod.rs", up, down))))
  {
    VersionOfMigrationFile(dir);
  }

  /** Every descriptor `migration_from` produces reports `dir/mod.rs` as its
      file path and "mod.rs" as its version. */
  lemma MigrationFromAccessors(dir: string, pathExists: string -> bool, cargo: string -> Option<string>)
    requires MigrationFrom(dir, pathExists, cargo).Some? && MigrationFrom(dir, pathExists, cargo).value.Success?
    ensures MigrationFrom(dir, pathExists, cargo).value.value.FilePath() == Some(Join(dir, MigrationFile))
    ensures MigrationFrom(dir, pathExists, cargo).value.value.Version() == "mod.rs"
  {
    VersionOfMigrationFile(dir);
  }

  /** When the generated program prints two newline-free renderings, the
      descriptor carries exactly those as its up and down SQL. */
  lemma MigrationFromWellBehavedBuild(dir: string, pathExists: string -> bool, cargo: string -> Option<string>,
                                      up: string, down: string)
    requires pathExists(Join(dir, MigrationFile))
    requires cargo(EntryPoint(Join(dir, MigrationFile))) == Some(EmittedStdout(up, down))
    requires '\n' !in up && '\n' !in down
    ensures MigrationFrom(dir, pathExists, cargo)
            == Some(Success(BarrelMigration(Join(dir, MigrationFile), "mod.rs", up, down)))
  {
    VersionOfMigrationFile(dir);
    ParseEmitted(up, down);
  }
}
