/** The parts of Rust's `std::path` that the migration pipeline relies on,
    for Unix paths held as text: `Path::file_name` and `Path::join`. */
module RustPath {
  import opened Wrappers
  import opened RustStr

  /** The components `Path::components` reports as named: the `/`-separated
      pieces with empty pieces (repeated or trailing separators) and `.`
      pieces dropped. `..` is kept and is never a file name. */
  function Named(pieces: seq<string>): (r: seq<string>)
    ensures forall k :: 0 <= k < |r| ==> r[k] != "" && r[k] != "." && r[k] in pieces
  {
    if |pieces| == 0 then []
    else
      var rest := Named(pieces[1..]);
      if pieces[0] == "" || pieces[0] == "." then rest else [pieces[0]] + rest
  }

  /** `Path::file_name`: the final component when it is a normal name;
      `None` for the empty path, the root, `.` alone, or a path ending in `..`. */
  function FileName(p: string): (r: Option<string>)
    ensures r.Some? ==> r.value != "" && r.value != "." && r.value != ".." && '/' !in r.value
  {
    var named := Named(Split(p, '/'));
    if |named| == 0 || named[|named| - 1] == ".." then None
    else
      assert named[|named| - 1] in Split(p, '/');
      Some(named[|named| - 1])
  }

  /** `Path::join(base, child)` (`PathBuf::push`): an absolute `child`
      replaces `base`; otherwise `child` is appended, with a `/` in between
      unless `base` is empty or already ends in one. */
  function Join(base: string, child: string): (r: string)
    ensures |child| > 0 && child[0] == '/' ==> r == child
    ensures |r| >= |child|
    ensures !(|child| > 0 && child[0] == '/') ==> r[|r| - |child|..] == child
    ensures !(|child| > 0 && child[0] == '/') ==> r == base + child || r == base + "/" + child
    ensures !(|child| > 0 && child[0] == '/') ==> |base| <= |r| && r[..|base|] == base
  {
    if |child| > 0 && child[0] == '/' then child
    else if base == [] || base[|base| - 1] == '/' then base + child
    else base + "/" + child
  }

  lemma {:induction false} NamedAppend(xs: seq<string>, ys: seq<string>)
    ensures Named(xs + ys) == Named(xs) + Named(ys)
  {
    if |xs| > 0 {
      assert (xs + ys)[1..] == xs[1..] + ys;
      NamedAppend(xs[1..], ys);
    } else {
      assert xs + ys == ys;
    }
  }

  /** The named components of `base` joined with a single name other than
      `.` end with that name. */
  lemma LastNamedOfJoin(base: string, name: string)
    requires name != "" && name != "." && '/' !in name
    ensures var named := Named(Split(Join(base, name), '/'));
      |named| > 0 && named[|named| - 1] == name
  {
    var j := Join(base, name);
    assert Split(name, '/') == [name];
    assert Named([name]) == [name];
    if base == [] {
      assert j == name;
    } else {
      var dir := if base[|base| - 1] == '/' then base[..|base| - 1] else base;
      assert j == dir + ['/'] + name;
      SplitAround(dir, '/', name);
      NamedAppend(Split(dir, '/'), [name]);
    }
  }

  /** Joining a single normal name onto any directory gives a path whose
      file name is that name. */
  lemma JoinFileName(base: string, name: string)
    requires name != "" && name != "." && name != ".." && '/' !in name
    ensures FileName(Join(base, name)) == Some(name)
  {
    LastNamedOfJoin(base, name);
  }

  /** A path ending in `..` has no file name, whatever its directory. */
  lemma FileNameOfParentDir(dir: string)
    ensures FileName(Join(dir, "..")) == None
  {
    LastNamedOfJoin(dir, "..");
  }

  /** The root and the empty path have no file name. */
  lemma FileNameOfRoot()
    ensures FileName("") == None
    ensures FileName("/") == None
  {
    assert Split("", '/') == [""];
    assert "" + ['/'] + "" == "/";
    SplitAround("", '/', "");
    assert Named(["", ""]) == [];
  }
}
