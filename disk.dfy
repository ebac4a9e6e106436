/** A local file system: the set of directories and a map from file path to contents. */
module Disk {
  import opened Exceptions
  import opened Paths

  /** `C` is what a file holds: text for downloaded blobs, lines for a CSV, rows for a chunk file. */
  datatype Disk<C> = Disk(dirs: set<Path>, files: map<Path, C>)

  /** The root and the working directory always exist. */
  predicate IsDir<C>(d: Disk<C>, p: Path) {
    p.parts == [] || p in d.dirs
  }

  /** A lookup can go on past `q`: it is a directory, not a regular file. */
  predicate Passable<C>(d: Disk<C>, q: Path) {
    IsDir(d, q) && q !in d.files
  }

  /** The paths a lookup of `p` goes through: the root (or `.`), each ancestor of `p`, then `p`. */
  function Walk(p: Path): (qs: seq<Path>)
    ensures |qs| == |p.parts| + 1 && qs[|p.parts|] == p
  {
    assert p.parts[..|p.parts|] == p.parts;
    seq(|p.parts| + 1, k requires 0 <= k <= |p.parts| => Path(p.absolute, p.parts[..k]))
  }

  /** A lookup along `qs` stops at `qs[i]`: the first path it cannot go on past. */
  predicate StopsAt<C>(d: Disk<C>, qs: seq<Path>, i: int) {
    0 <= i < |qs| && !Passable(d, qs[i]) && forall j :: 0 <= j < i ==> Passable(d, qs[j])
  }

  /**
   * What a lookup along `qs` raises where it stops: NotADirectoryError at a regular file
   * (ENOTDIR), FileNotFoundError where nothing is (ENOENT).
   */
  function WalkError<C>(d: Disk<C>, qs: seq<Path>): Exc
    requires exists i :: 0 <= i < |qs| && !Passable(d, qs[i])
    decreases |qs|
  {
    if !Passable(d, qs[0]) then (if qs[0] in d.files then NotADirectoryError else FileNotFoundError)
    else
      var i :| 0 <= i < |qs| && !Passable(d, qs[i]);
      assert qs[1..][i - 1] == qs[i];
      WalkError(d, qs[1..])
  }

  /** The error of a lookup is decided by the path it stops at. */
  lemma {:induction false} WalkErrorAt<C>(d: Disk<C>, qs: seq<Path>, i: int)
    requires StopsAt(d, qs, i)
    ensures WalkError(d, qs) == if qs[i] in d.files then NotADirectoryError else FileNotFoundError
    decreases |qs|
  {
    if i > 0 {
      assert StopsAt(d, qs[1..], i - 1) by {
        forall j | 0 <= j < i - 1 ensures Passable(d, qs[1..][j]) {
          assert qs[1..][j] == qs[j + 1];
        }
      }
      WalkErrorAt(d, qs[1..], i - 1);
    }
  }

  /** Every lookup that cannot go on past some path of `qs` stops somewhere. */
  lemma {:induction false} FindStop<C>(d: Disk<C>, qs: seq<Path>, k: int) returns (i: int)
    requires 0 <= k < |qs| && !Passable(d, qs[k])
    ensures StopsAt(d, qs, i) && i <= k
    decreases k
  {
    if Passable(d, qs[0]) {
      assert qs[1..][k - 1] == qs[k];
      var i' := FindStop(d, qs[1..], k - 1);
      i := i' + 1;
      forall j | 0 <= j < i ensures Passable(d, qs[j]) {
        if j > 0 {
          assert qs[j] == qs[1..][j - 1];
        }
      }
    } else {
      i := 0;
    }
  }

  /**
   * A disk shaped as a file system is: no path is both a regular file and a directory, the
   * root is no file, and every entry lies in a directory.
   */
  ghost predicate Tree<C>(d: Disk<C>) {
    && (forall q :: q in d.files ==> q !in d.dirs && q.parts != [] && IsDir(d, Parent(q)))
    && (forall q :: q in d.dirs ==> IsDir(d, Parent(q)))
  }

  /** On such a disk everything above an entry on a walk is a directory. */
  lemma {:induction false} TreeAbove<C>(d: Disk<C>, p: Path, k: int, j: int)
    requires Tree(d) && 0 <= j < k <= |p.parts|
    requires Walk(p)[k] in d.files || Walk(p)[k] in d.dirs
    ensures Passable(d, Walk(p)[j])
    decreases k
  {
    var qs := Walk(p);
    assert Parent(qs[k]) == qs[k - 1] by {
      assert p.parts[..k][..k - 1] == p.parts[..k - 1];
    }
    if qs[k - 1].parts == [] {
      assert j == 0 && qs[j] == qs[k - 1];
    } else if j < k - 1 {
      TreeAbove(d, p, k - 1, j);
    }
  }

  /**
   * On a disk shaped as a file system, a lookup of `p` that fails raises NotADirectoryError
   * exactly when some path on the way, `p` included, is a regular file.
   */
  lemma TreeWalkError<C>(d: Disk<C>, p: Path)
    requires Tree(d) && !Passable(d, p)
    ensures exists i :: 0 <= i < |Walk(p)| && !Passable(d, Walk(p)[i])
    ensures WalkError(d, Walk(p)) == NotADirectoryError <==> exists k :: 0 <= k < |Walk(p)| && Walk(p)[k] in d.files
    ensures WalkError(d, Walk(p)) in {NotADirectoryError, FileNotFoundError}
  {
    var qs := Walk(p);
    var i := FindStop(d, qs, |p.parts|);
    WalkErrorAt(d, qs, i);
    forall k | 0 <= k < |qs| && qs[k] in d.files ensures qs[i] in d.files {
      if k > i {
        TreeAbove(d, p, k, i);
      }
    }
  }

  /** `p.mkdir(exist_ok=True)`: creates `p` when its parent is a directory. */
  function Mkdir<C>(d: Disk<C>, p: Path): (r: Outcome<Disk<C>>)
    ensures r.Ok? ==> r.value.files == d.files && r.value.dirs == d.dirs + (if p.parts == [] then {} else {p})
    ensures r.Ok? <==> IsDir(d, p) || (p !in d.files && Parent(p) !in d.files && IsDir(d, Parent(p)))
  {
    if IsDir(d, p) then Ok(d)
    else if p in d.files then Raise(FileExistsError)
    else if !Passable(d, Parent(p)) then Raise(WalkError(d, Walk(Parent(p))))
    else Ok(d.(dirs := d.dirs + {p}))
  }

  /** `p` and every ancestor of `p` below the root. */
  function Lineage(p: Path): (s: set<Path>)
    ensures p.parts != [] ==> p in s
    ensures forall q :: q in s ==> q.parts != []
  {
    var s := set k | 1 <= k <= |p.parts| :: Path(p.absolute, p.parts[..k]);
    assert p.parts[..|p.parts|] == p.parts;
    assert p.parts != [] ==> Path(p.absolute, p.parts[..|p.parts|]) in s;
    s
  }

  /** `p.mkdir(parents=True, exist_ok=True)`: creates `p` and every missing ancestor. */
  function MkdirParents<C>(d: Disk<C>, p: Path): (r: Outcome<Disk<C>>)
    ensures r.Ok? ==> r.value.files == d.files && r.value.dirs == d.dirs + Lineage(p)
    ensures r.Ok? ==> IsDir(r.value, p)
    ensures r.Ok? <==> forall q :: q in Lineage(p) ==> q !in d.files
  {
    if exists q :: q in Lineage(p) && q in d.files then
      if p in d.files then Raise(FileExistsError) else Raise(NotADirectoryError)
    else Ok(d.(dirs := d.dirs + Lineage(p)))
  }

  /** The names of the entries (files and directories) directly inside `dir`. */
  function Children<C>(d: Disk<C>, dir: Path): set<string> {
    set q | q in d.dirs + d.files.Keys && q.parts != [] && Parent(q) == dir :: Name(q)
  }

  /** The names `dir.iterdir()` yields, in no particular order. */
  function ListDir<C>(d: Disk<C>, dir: Path): (r: Outcome<set<string>>)
    ensures r.Ok? <==> IsDir(d, dir) && dir !in d.files
  {
    if !Passable(d, dir) then Raise(WalkError(d, Walk(dir)))
    else Ok(Children(d, dir))
  }

  /** `open(p, "w")` followed by a write of `c`. */
  function WriteFile<C>(d: Disk<C>, p: Path, c: C): (r: Outcome<Disk<C>>)
    ensures r.Ok? ==> r.value == d.(files := d.files[p := c])
    ensures r.Ok? <==> p !in d.dirs && p.parts != [] && IsDir(d, Parent(p)) && Parent(p) !in d.files
  {
    if p in d.dirs || p.parts == [] then Raise(IsADirectoryError)
    else if !Passable(d, Parent(p)) then Raise(WalkError(d, Walk(Parent(p))))
    else Ok(d.(files := d.files[p := c]))
  }

  /** With a regular file `f` at the top, each operation below it raises NotADirectoryError. */
  lemma BelowFileRaises(f: string)
    ensures var d: Disk<string> := Disk({}, map[Path(false, [f]) := ""]);
      && Mkdir(d, Path(false, [f, "a", "b"])) == Raise(NotADirectoryError)
      && WriteFile(d, Path(false, [f, "a", "x"]), "") == Raise(NotADirectoryError)
      && ListDir(d, Path(false, [f, "raw"])) == Raise(NotADirectoryError)
  {
    var d: Disk<string> := Disk({}, map[Path(false, [f]) := ""]);
    var qa := Walk(Path(false, [f, "a"]));
    var qr := Walk(Path(false, [f, "raw"]));
    assert qa[0] == qr[0] == Path(false, []) && qa[1] == qr[1] == Path(false, [f]);
    assert Parent(Path(false, [f, "a", "b"])) == Parent(Path(false, [f, "a", "x"])) == Path(false, [f, "a"]);
    WalkErrorAt(d, qa, 1);
    WalkErrorAt(d, qr, 1);
  }
}
