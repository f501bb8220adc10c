/** Concrete instances of the Diesel integration's behaviour. */
module DieselExamples {
  import opened Wrappers
  import opened RustStr
  import opened RustPath
  import opened Diesel

  /** Paths without a file name: the root, the empty path, `..` endings. */
  lemma VersionWithoutFileName()
    ensures VersionFromPath("/") == Failure(FileNameMissing("/"))
    ensures VersionFromPath("") == Failure(FileNameMissing(""))
    ensures VersionFromPath("lib/..") == Failure(FileNameMissing("lib/.."))
  {
    FileNameOfRoot();
    FileNameOfParentDir("lib");
    assert Join("lib", "..") == "lib/..";
  }

  /** A directory named `<date>_<slug>`, the date written in digits,
      resolves to the date, whatever the slug and the parent directory. */
  lemma VersionOfDatedDirectory(parent: string, date: string, slug: string)
    requires forall k :: 0 <= k < |date| ==> '0' <= date[k] <= '9'
    requires '/' !in slug
    ensures VersionFromPath(Join(parent, date + "_" + slug)) == Success(date)
  {
    assert '_' !in date && '/' !in date && '-' !in date by {
      forall k | 0 <= k < |date| ensures date[k] != '_' && date[k] != '/' && date[k] != '-' {}
    }
    VersionIgnoresSuffix(parent, date, slug);
    RemoveAllAbsent(date, '-');
  }

  /** Output with no newline has no down line; a single newline already
      gives an (empty) down line. */
  lemma ParseExamples()
    ensures ParseOutput("") == Failure(MissingDownLine)
    ensures ParseOutput("a") == Failure(MissingDownLine)
    ensures ParseOutput("a\n") == Success(("a", ""))
  {
    ParseLeadingLines("a", "", "");
    assert "a\n" == "a" + "\n" + "";
  }

  /** For a dated migration directory, the version a reader would expect
      from the directory name differs from the one the descriptor carries. */
  lemma DatedDirectoryDescriptor(parent: string, date: string, slug: string,
                                 pathExists: string -> bool, cargo: string -> Option<string>)
    requires forall k :: 0 <= k < |date| ==> '0' <= date[k] <= '9'
    requires '/' !in slug
    requires MigrationFrom(Join(parent, date + "_" + slug), pathExists, cargo).Some?
    requires MigrationFrom(Join(parent, date + "_" + slug), pathExists, cargo).value.Success?
    ensures VersionFromPath(Join(parent, date + "_" + slug)) == Success(date)
    ensures MigrationFrom(Join(parent, date + "_" + slug), pathExists, cargo).value.value.Version() == "mod.rs"
  {
    VersionOfDatedDirectory(parent, date, slug);
    MigrationFromAccessors(Join(parent, date + "_" + slug), pathExists, cargo);
  }
}
