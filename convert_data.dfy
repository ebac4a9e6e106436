/** The module-level `json_to_csv` stub, which only prepares the CSV's folder. */
module ConvertData {
  import opened Exceptions
  import opened Paths
  import opened Disk
  import opened Snapshot

  /** `Path("data", "interim", <data_dir name>_<entity>).with_suffix(".csv")`. */
  function InterimPath(dataDir: Path, entity: string): (p: Path)
    ensures Parent(p) == Path(false, ["data", "interim"])
    ensures Name(p) == WithSuffix(Name(dataDir) + "_" + entity, ".csv")
  {
    Path(false, ["data", "interim", WithSuffix(Name(dataDir) + "_" + entity, ".csv")])
  }

  /**
   * `json_to_csv`: lists `data_dir` (`dir` is what is there), then creates
   * `data/interim` without parents. The rest of its body is unwritten, so no CSV appears.
   */
  function JsonToCsv(d: Disk<seq<Line>>, dir: Found, dataDir: Path, entity: string)
    : (r: Outcome<Disk<seq<Line>>>)
    ensures r.Ok? ==> r.value.files == d.files
    ensures r.Ok? ==> IsDir(r.value, Path(false, ["data", "interim"]))
    ensures r.Ok? <==> dir.Found? && dir.node.Dir? && Mkdir(d, Path(false, ["data", "interim"])).Ok?
  {
    match dir
    case Missing => Raise(FileNotFoundError)
    case BelowFile => Raise(NotADirectoryError)
    case Found(File(_)) => Raise(NotADirectoryError)
    case Found(Dir(listing)) =>
      var files := JsonFiles(listing);
      Mkdir(d, Parent(InterimPath(dataDir, entity)))
  }

  /** Creating `data/interim` needs `data` to be a directory already. */
  lemma JsonToCsvNeedsDataFolder(d: Disk<seq<Line>>, listing: seq<Entry>, dataDir: Path, entity: string)
    requires Path(false, ["data", "interim"]) !in d.dirs
    requires !IsDir(d, Path(false, ["data"]))
    ensures JsonToCsv(d, Found(Dir(listing)), dataDir, entity).Raise?
  {
    assert Parent(Path(false, ["data", "interim"])) == Path(false, ["data"]);
  }
}
