/** File system paths as `pathlib` composes them, and the repository's fixed paths. */
module Paths {

  /** A path: absolute or relative, and its components below the root. */
  datatype Path = Path(absolute: bool, parts: seq<string>)

  /** `Path(p, name)` for a name without separators. */
  function Join(p: Path, name: string): (r: Path)
    ensures Parent(r) == p && Name(r) == name
    ensures r.absolute == p.absolute && |r.parts| == |p.parts| + 1
  {
    Path(p.absolute, p.parts + [name])
  }

  /** `p.parent`: the root and `.` are their own parents. */
  function Parent(p: Path): Path {
    if p.parts == [] then p else Path(p.absolute, p.parts[..|p.parts| - 1])
  }

  /** `p.name`: the last component, empty for the root and `.`. */
  function Name(p: Path): string {
    if p.parts == [] then "" else p.parts[|p.parts| - 1]
  }

  /** `s.rfind(c)`: the last index of `c` in `s`, or -1. */
  function RFind(s: string, c: char): (r: int)
    ensures -1 <= r < |s|
    ensures 0 <= r ==> s[r] == c && c !in s[r + 1..]
    ensures r == -1 ==> c !in s
  {
    if s == [] then -1
    else if s[|s| - 1] == c then |s| - 1
    else
      assert s == s[..|s| - 1] + [s[|s| - 1]];
      RFind(s[..|s| - 1], c)
  }

  /** `PurePath.suffix` of a name: from its last dot, unless that dot starts or ends the name. */
  function Suffix(name: string): string {
    var i := RFind(name, '.');
    if 0 < i < |name| - 1 then name[i..] else ""
  }

  /** `PurePath.with_suffix` on a name: replaces the suffix, or appends when there is none. */
  function WithSuffix(name: string, suffix: string): string {
    var current := Suffix(name);
    if current == "" then name + suffix else name[..|name| - |current|] + suffix
  }

  /** A name's suffix is ".json" exactly when it ends in ".json" after at least one other character. */
  lemma JsonSuffix(name: string)
    ensures Suffix(name) == ".json" <==> 5 < |name| && name[|name| - 5..] == ".json"
  {
    var i := RFind(name, '.');
    if 5 < |name| && name[|name| - 5..] == ".json" {
      assert name[|name| - 5] == '.';
      assert name[|name| - 4..] == "json";
      assert '.' !in name[|name| - 4..];
      assert i == |name| - 5;
    }
  }

  /** A name without a dot just gets the suffix appended. */
  lemma WithSuffixNoDot(name: string, suffix: string)
    requires '.' !in name
    ensures WithSuffix(name, suffix) == name + suffix
  {
  }

  /** The last occurrence of `c` is the one with no `c` after it. */
  lemma {:induction false} RFindLast(s: string, c: char, k: nat)
    requires k < |s| && s[k] == c && c !in s[k + 1..]
    ensures RFind(s, c) == k
    decreases |s|
  {
    if k < |s| - 1 {
      assert s[|s| - 1] == s[k + 1..][|s| - k - 2];
      assert s[..|s| - 1][k + 1..] == s[k + 1..|s| - 1];
      assert s[k + 1..] == s[k + 1..|s| - 1] + [s[|s| - 1]];
      RFindLast(s[..|s| - 1], c, k);
    }
  }

  /** With its last dot inside the name, `with_suffix` replaces everything from that dot on. */
  lemma WithSuffixAtLastDot(name: string, k: nat, suffix: string)
    requires 0 < k < |name| - 1 && name[k] == '.' && '.' !in name[k + 1..]
    ensures WithSuffix(name, suffix) == name[..k] + suffix
  {
    RFindLast(name, '.', k);
  }

  /**
   * A dot in the name makes `with_suffix` cut everything after it: a raw folder called
   * `fpl.2021` gives `fpl.csv` for every entity.
   */
  lemma WithSuffixCutsAtDot(stem: string, rest: string, suffix: string)
    requires stem != "" && rest != "" && '.' !in rest
    ensures WithSuffix(stem + "." + rest, suffix) == stem + suffix
  {
    var name := stem + "." + rest;
    assert name[|stem| + 1..] == rest && name[..|stem|] == stem;
    WithSuffixAtLastDot(name, |stem|, suffix);
  }

  /** `p.absolute()` against the working directory `cwd`. */
  function Absolute(cwd: Path, p: Path): (r: Path)
    ensures r.absolute
  {
    if p.absolute then p else Path(true, cwd.parts + p.parts)
  }

  /** `get_root_path`: `parents[2]` of the absolute path of the paths module file. */
  function RootPath(cwd: Path, moduleFile: Path): (root: Path)
    requires |Absolute(cwd, moduleFile).parts| >= 3
    ensures root.absolute
    ensures Parent(Parent(Parent(Absolute(cwd, moduleFile)))) == root
  {
    var f := Absolute(cwd, moduleFile);
    Path(true, f.parts[..|f.parts| - 3])
  }

  /** For the module at `<root>/fpl/utils/paths.py`, the root is the directory holding `fpl`. */
  lemma RootHoldsPackage(cwd: Path, moduleFile: Path)
    requires |Absolute(cwd, moduleFile).parts| >= 3
    requires var ps := Absolute(cwd, moduleFile).parts;
      ps[|ps| - 3..] == ["fpl", "utils", "paths.py"]
    ensures Join(Join(Join(RootPath(cwd, moduleFile), "fpl"), "utils"), "paths.py")
            == Absolute(cwd, moduleFile)
  {
    var f := Absolute(cwd, moduleFile);
    assert f.parts == f.parts[..|f.parts| - 3] + f.parts[|f.parts| - 3..];
  }

  /** `get_data_path`: `<root>/data`. */
  function DataPath(root: Path): (p: Path)
    ensures Parent(p) == root && Name(p) == "data"
  {
    Join(root, "data")
  }

  /** `get_raw_data_path`: `<root>/data/raw`, a child of the data path. */
  function RawDataPath(root: Path): (p: Path)
    ensures Parent(p) == DataPath(root) && Name(p) == "raw"
    ensures p.parts == root.parts + ["data", "raw"]
  {
    Join(DataPath(root), "raw")
  }

  /** `get_config_file_path`: `<root>/config/config.yaml`. */
  function ConfigFilePath(root: Path): (p: Path)
    ensures Parent(Parent(p)) == root && Name(Parent(p)) == "config" && Name(p) == "config.yaml"
  {
    Join(Join(root, "config"), "config.yaml")
  }
}
