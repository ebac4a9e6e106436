/**
 * The older `DataConverter`: one directory of snapshots, records annotated with the
 * download time and gameweek only, and the CSV truncated at the first file.
 */
module ConverterClass {
  import opened Exceptions
  import opened Paths
  import opened Disk
  import opened Snapshot

  /** `Path(main_data_folder, main_interim_folder)`: an empty name adds no component. */
  function InterimFolder(mainDataFolder: string, mainInterimFolder: string): (p: Path)
    ensures !p.absolute
    ensures |p.parts| <= 2
  {
    Path(false, (if mainDataFolder == "" then [] else [mainDataFolder])
              + (if mainInterimFolder == "" then [] else [mainInterimFolder]))
  }

  /** With the default arguments the CSV goes to `data/interim/<data_dir name>_<entity>.csv`. */
  lemma DefaultEntityPath(dataDir: Path, entity: string)
    requires '.' !in Name(dataDir) && '.' !in entity
    ensures var p := Join(InterimFolder("data", "interim"), WithSuffix(Name(dataDir) + "_" + entity, ".csv"));
      p == Path(false, ["data", "interim", Name(dataDir) + "_" + entity + ".csv"])
  {
    WithSuffixNoDot(Name(dataDir) + "_" + entity, ".csv");
  }

  /**
   * `convert_json_to_csv_on_entity` from the disk `d`: `dir` is what is at `data_dir`.
   * Listing it comes first, then the mkdir, then one loop over the sorted ".json" files.
   */
  function ConvertFlat(d: Disk<seq<Line>>, dir: Found, out: Path, entity: string)
    : (Disk<seq<Line>>, Option<Exc>)
  {
    match dir
    case Missing => (d, Some(FileNotFoundError))
    case BelowFile => (d, Some(NotADirectoryError))
    case Found(File(_)) => (d, Some(NotADirectoryError))
    case Found(Dir(listing)) =>
      match Mkdir(d, Parent(out))
      case Raise(e) => (d, Some(e))
      case Ok(d1) => RunFiles(d1, JsonFiles(listing), out, entity)
  }

  /** The loop over `files`, once the CSV's folder exists. */
  function RunFiles(d: Disk<seq<Line>>, files: seq<Entry>, out: Path, entity: string)
    : (Disk<seq<Line>>, Option<Exc>)
  {
    var run := RunJobs(Output(d, out), FolderJobs(0, files, Setting(entity, false, out in d.dirs)));
    (Store(d, out, run.0), run.1)
  }

  /** In a single folder only the first file is at position 0. */
  lemma FlatOriginFirst(files: seq<Entry>, s: Setting)
    ensures OriginFirst(FolderJobs(0, files, s))
  {
    FolderJobsAt(0, files, s);
  }

  /**
   * With the folder in place and no uncaught exception, the CSV holds the header and
   * every readable file's rows when the first file is readable; otherwise the old
   * CSV (if any) followed by those rows.
   */
  lemma ConvertFlatAccumulates(d: Disk<seq<Line>>, listing: seq<Entry>, out: Path, entity: string)
    requires Mkdir(d, Parent(out)).Ok? && out !in d.dirs && out.parts != []
    requires NoCrash(FolderJobs(0, JsonFiles(listing), Setting(entity, false, false)))
    ensures var jobs := FolderJobs(0, JsonFiles(listing), Setting(entity, false, false));
      var (d2, exc) := ConvertFlat(d, Found(Dir(listing)), out, entity);
      && exc == None
      && d2.dirs == d.dirs + (if Parent(out).parts == [] then {} else {Parent(out)})
      && Output(d2, out) ==
           (if jobs != [] && Succeeded(jobs[0]) then Some([Header] + Written(jobs))
            else if Touched(jobs) then Some(Output(d, out).GetOr([]) + Written(jobs))
            else Output(d, out))
  {
    var s := Setting(entity, false, false);
    var jobs := FolderJobs(0, JsonFiles(listing), s);
    var d1 := Mkdir(d, Parent(out)).value;
    assert out != Parent(out);
    assert out !in d1.dirs;
    assert Output(d1, out) == Output(d, out);
    FlatOriginFirst(JsonFiles(listing), s);
    FolderJobsAt(0, JsonFiles(listing), s);
    RunJobsAccumulates(Output(d1, out), jobs);
  }

  /** No `season` is added: a row has one exactly when its record had one. */
  lemma FlatRowsHaveNoSeason(files: seq<Entry>, s: Setting, k: nat, r: nat)
    requires !s.seasoned
    requires var jobs := FolderJobs(0, files, s); k < |jobs| && Succeeded(jobs[k]) && r < |jobs[k].rows.value|
    ensures var node := files[k].node;
      && node.File? && node.content.Parsed?
      && var items := EntityItems(node.content.doc, s.entity);
         r < |items| && items[r].Obj?
         && ("season" in FolderJobs(0, files, s)[k].rows.value[r] <==> "season" in items[r].fields)
  {
    var job := FolderJobs(0, files, s)[k];
    assert job.rows == Attempt(files[k].node, 0, s);
  }

  /** The older converter: its paths and the disk it writes the CSV to. */
  class DataConverter {
    const dataDir: Path
    const entity: string
    const interimFolderPath: Path
    const interimFolderEntityPath: Path
    var disk: Disk<seq<Line>>

    /** `__init__`. */
    constructor (disk: Disk<seq<Line>>, dataDir: Path, entity: string,
                 mainDataFolder: string := "data", mainInterimFolder: string := "interim")
      ensures this.dataDir == dataDir && this.entity == entity && this.disk == disk
      ensures interimFolderPath == InterimFolder(mainDataFolder, mainInterimFolder)
      ensures interimFolderEntityPath == Join(interimFolderPath, WithSuffix(Name(dataDir) + "_" + entity, ".csv"))
    {
      this.dataDir := dataDir;
      this.entity := entity;
      this.interimFolderPath := InterimFolder(mainDataFolder, mainInterimFolder);
      this.interimFolderEntityPath :=
        Join(InterimFolder(mainDataFolder, mainInterimFolder), WithSuffix(Name(dataDir) + "_" + entity, ".csv"));
      this.disk := disk;
    }

    /** `make_interim_folder_if_absent`: mkdir of the CSV's folder with `exist_ok`. */
    method MakeInterimFolderIfAbsent() returns (exc: Option<Exc>)
      modifies this
      ensures Mkdir(old(disk), Parent(interimFolderEntityPath)).Ok? ==>
        exc == None && disk == Mkdir(old(disk), Parent(interimFolderEntityPath)).value
      ensures Mkdir(old(disk), Parent(interimFolderEntityPath)).Raise? ==>
        exc == Some(Mkdir(old(disk), Parent(interimFolderEntityPath)).exc) && disk == old(disk)
    {
      var r := Mkdir(disk, Parent(interimFolderEntityPath));
      match r
      case Ok(d) =>
        disk := d;
        exc := None;
      case Raise(e) =>
        exc := Some(e);
    }

    /** `to_csv` of `rows`, with mode "w" and the header when `truncate`, else mode "a". */
    method WriteRows(rows: seq<Record>, truncate: bool)
      modifies this
      ensures disk == Store(old(disk), interimFolderEntityPath,
                            Some(WriteCsv(Output(old(disk), interimFolderEntityPath), rows, truncate)))
    {
      var file := WriteCsv(Output(disk, interimFolderEntityPath), rows, truncate);
      disk := disk.(files := disk.files[interimFolderEntityPath := file]);
    }

    /** The loop of `convert_json_to_csv_on_entity`, once the CSV's folder exists. */
    method ConvertFiles(files: seq<Entry>) returns (exc: Option<Exc>)
      modifies this
      ensures (disk, exc) == RunFiles(old(disk), files, interimFolderEntityPath, entity)
    {
      var out := interimFolderEntityPath;
      ghost var d1 := disk;
      var s := Setting(entity, false, out in disk.dirs);
      ghost var jobs := FolderJobs(0, files, s);
      StoreOutput(d1, out);
      var i := 0;
      while i < |files|
        invariant 0 <= i <= |files|
        invariant disk == Store(d1, out, Output(disk, out)) && disk.dirs == d1.dirs
        invariant RunJobs(Output(d1, out), jobs) == RunJobs(Output(disk, out), jobs[i..])
        decreases |files| - i
      {
        assert jobs[i..][0] == FileJob(0, i, files[i], Attempt(files[i].node, 0, s));
        assert jobs[i..][1..] == jobs[i + 1..];
        var rows := FileRows(files[i].node, entity, None);
        match rows {
          case Ok(records) =>
            if out in disk.dirs {
              return Some(IsADirectoryError);
            }
            ghost var before := disk;
            WriteRows(records, i == 0);
            StoreTwice(d1, out, Output(before, out), Output(disk, out));
          case Raise(e) =>
            if !Caught(e) {
              return Some(e);
            }
        }
        i := i + 1;
      }
      return None;
    }

    /**
     * `convert_json_to_csv_on_entity`: `dir` is what is at `data_dir`. Returns the
     * exception that escapes, if one does.
     */
    method ConvertJsonToCsvOnEntity(dir: Found) returns (exc: Option<Exc>)
      modifies this
      ensures (disk, exc) == ConvertFlat(old(disk), dir, interimFolderEntityPath, entity)
    {
      if dir.Missing? {
        return Some(FileNotFoundError);
      }
      if dir.BelowFile? || dir.node.File? {
        return Some(NotADirectoryError);
      }
      var files := JsonFiles(dir.node.listing);
      exc := MakeInterimFolderIfAbsent();
      if exc.Some? {
        return;
      }
      exc := ConvertFiles(files);
    }
  }
}
