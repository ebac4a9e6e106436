/**
 * `DataConverter` of the current version: snapshot folders named "fpl-data" under the
 * raw data directory, each folder's index as the season, and one CSV per entity.
 */
module Converter {
  import opened Exceptions
  import opened Text
  import opened Sorting
  import opened Paths
  import opened Disk
  import opened Snapshot

  /** The entries of the raw directory whose name contains "fpl-data", in listing order. */
  function DataFolders(listing: seq<Entry>): (r: seq<Entry>)
    ensures forall e :: e in r <==> e in listing && Contains(e.name, "fpl-data")
    ensures r == [] <==> forall e :: e in listing ==> !Contains(e.name, "fpl-data")
  {
    if listing == [] then []
    else (if Contains(listing[0].name, "fpl-data") then [listing[0]] else []) + DataFolders(listing[1..])
  }

  /** `_find_json`: the snapshot folders, sorted, or the raw directory itself when there is none. */
  function FindJson(rawName: string, listing: seq<Entry>): seq<Entry> {
    var named := DataFolders(listing);
    if named != [] then Sort(named, EntryLe) else [Entry(rawName, Dir(listing))]
  }

  /**
   * The folders are exactly the "fpl-data" entries, sorted by name; with none of them,
   * the raw directory is the only folder.
   */
  lemma FindJsonSelectsDataFolders(rawName: string, listing: seq<Entry>)
    ensures var folders := FindJson(rawName, listing);
      if exists e :: e in listing && Contains(e.name, "fpl-data") then
        Sorted(folders, EntryLe) && forall e :: e in folders <==> e in listing && Contains(e.name, "fpl-data")
      else
        folders == [Entry(rawName, Dir(listing))]
  {
    var named := DataFolders(listing);
    if exists e :: e in listing && Contains(e.name, "fpl-data") {
      var e :| e in listing && Contains(e.name, "fpl-data");
      assert e in named;
      EntryLeTotalPreorder();
      SortSorted(named, EntryLe);
      forall f ensures f in Sort(named, EntryLe) <==> f in named {
        SortMembers(named, EntryLe, f);
      }
    }
  }

  /** The CSV path: `<interim>/<raw name>_<entity>` with its suffix replaced by ".csv". */
  function EntityPath(interim: Path, rawName: string, entity: string): (p: Path)
    ensures Parent(p) == interim
    ensures Name(p) == WithSuffix(rawName + "_" + entity, ".csv")
  {
    Join(interim, WithSuffix(rawName + "_" + entity, ".csv"))
  }

  /** For dot-free names the CSV is named `<raw name>_<entity>.csv`. */
  lemma EntityPathPlainName(interim: Path, rawName: string, entity: string)
    requires '.' !in rawName && '.' !in entity
    ensures Name(EntityPath(interim, rawName, entity)) == rawName + "_" + entity + ".csv"
  {
    WithSuffixNoDot(rawName + "_" + entity, ".csv");
  }

  /**
   * `convert_json_to_csv_on_entity` from the disk `d`: `raw` is what is at the raw data
   * path. Listing it comes first, then the mkdir of the CSV's folder, then the loops.
   */
  function Convert(d: Disk<seq<Line>>, raw: Found, rawName: string, out: Path, entity: string)
    : (Disk<seq<Line>>, Option<Exc>)
  {
    match raw
    case Missing => (d, Some(FileNotFoundError))
    case BelowFile => (d, Some(NotADirectoryError))
    case Found(File(_)) => (d, Some(NotADirectoryError))
    case Found(Dir(listing)) =>
      match Mkdir(d, Parent(out))
      case Raise(e) => (d, Some(e))
      case Ok(d1) => RunFolders(d1, FindJson(rawName, listing), out, entity)
  }

  /** The nested loops over `folders`, once the CSV's folder exists. */
  function RunFolders(d: Disk<seq<Line>>, folders: seq<Entry>, out: Path, entity: string)
    : (Disk<seq<Line>>, Option<Exc>)
  {
    var run := RunJobs(Output(d, out), Jobs(folders, 0, Setting(entity, true, out in d.dirs)));
    (Store(d, out, run.0), run.1)
  }

  /**
   * With the folder in place and no uncaught exception, the CSV holds the header and
   * the annotated rows of every readable file in (folder, file) order when the very
   * first file is readable, and otherwise the old CSV (if any) followed by those rows.
   */
  lemma ConvertAccumulates(d: Disk<seq<Line>>, listing: seq<Entry>, rawName: string, out: Path, entity: string)
    requires Mkdir(d, Parent(out)).Ok? && out !in d.dirs && out.parts != []
    requires NoCrash(Jobs(FindJson(rawName, listing), 0, Setting(entity, true, false)))
    ensures var s := Setting(entity, true, false); var jobs := Jobs(FindJson(rawName, listing), 0, s);
      var (d2, exc) := Convert(d, Found(Dir(listing)), rawName, out, entity);
      && exc == None
      && d2.dirs == d.dirs + (if Parent(out).parts == [] then {} else {Parent(out)})
      && Output(d2, out) ==
           (if jobs != [] && AtOrigin(jobs[0]) && Succeeded(jobs[0]) then Some([Header] + Written(jobs))
            else if Touched(jobs) then Some(Output(d, out).GetOr([]) + Written(jobs))
            else Output(d, out))
  {
    var folders := FindJson(rawName, listing);
    var jobs := Jobs(folders, 0, Setting(entity, true, false));
    var d1 := Mkdir(d, Parent(out)).value;
    assert out != Parent(out);
    assert out !in d1.dirs;
    assert Output(d1, out) == Output(d, out);
    OnlyFirstJobAtOrigin(folders, Setting(entity, true, false));
    RunJobsAccumulates(Output(d1, out), jobs);
  }

  /** Every row written is a record of the entity list, annotated with the folder index as its season. */
  lemma ConvertRowsAreSeasoned(folders: seq<Entry>, entity: string, blocked: bool, k: nat)
    requires var jobs := Jobs(folders, 0, Setting(entity, true, blocked)); k < |jobs| && Succeeded(jobs[k])
    ensures var job := Jobs(folders, 0, Setting(entity, true, blocked))[k];
      && job.file.node.File? && job.file.node.content.Parsed?
      && var doc := job.file.node.content.doc;
         var gw := GameWeek(doc);
         gw.Ok? && |job.rows.value| == |EntityItems(doc, entity)|
         && forall r :: 0 <= r < |job.rows.value| ==>
              doc.Obj? && "download_time" in doc.fields && EntityItems(doc, entity)[r].Obj? &&
              AnnotatedFrom(job.rows.value[r], EntityItems(doc, entity)[r].fields, doc.fields["download_time"],
                            gw.value, Some(job.season))
  {
    JobsRead(folders, 0, Setting(entity, true, blocked));
  }

  /** The converter: its paths and the disk it writes the CSV to. */
  class DataConverter {
    const entity: string
    const rawDataPath: Path
    const interimDataPath: Path
    const interimDataEntityPath: Path
    var disk: Disk<seq<Line>>

    /** `__init__` with both paths given. */
    constructor (entity: string, rawDataPath: Path, interimDataPath: Path, disk: Disk<seq<Line>>)
      ensures this.entity == entity && this.rawDataPath == rawDataPath && this.interimDataPath == interimDataPath
      ensures interimDataEntityPath == EntityPath(interimDataPath, Name(rawDataPath), entity)
      ensures this.disk == disk
    {
      this.entity := entity;
      this.rawDataPath := rawDataPath;
      this.interimDataPath := interimDataPath;
      this.interimDataEntityPath := EntityPath(interimDataPath, Name(rawDataPath), entity);
      this.disk := disk;
    }

    /** `_make_interim_folder_if_absent`: mkdir of the CSV's folder with `exist_ok`. */
    method MakeInterimFolderIfAbsent() returns (exc: Option<Exc>)
      modifies this
      ensures Mkdir(old(disk), Parent(interimDataEntityPath)).Ok? ==>
        exc == None && disk == Mkdir(old(disk), Parent(interimDataEntityPath)).value
      ensures Mkdir(old(disk), Parent(interimDataEntityPath)).Raise? ==>
        exc == Some(Mkdir(old(disk), Parent(interimDataEntityPath)).exc) && disk == old(disk)
    {
      var r := Mkdir(disk, Parent(interimDataEntityPath));
      match r
      case Ok(d) =>
        disk := d;
        exc := None;
      case Raise(e) =>
        exc := Some(e);
    }

    /** `to_csv` of `rows` to the CSV path, with mode "w" and the header when `truncate`, else mode "a". */
    method WriteRows(rows: seq<Record>, truncate: bool)
      modifies this
      ensures disk == Store(old(disk), interimDataEntityPath,
                            Some(WriteCsv(Output(old(disk), interimDataEntityPath), rows, truncate)))
    {
      var file := WriteCsv(Output(disk, interimDataEntityPath), rows, truncate);
      disk := disk.(files := disk.files[interimDataEntityPath := file]);
    }

    /**
     * The inner loop of `convert_json_to_csv_on_entity` over the files of folder `i`,
     * followed in the specification by the iterations `tail` of the later folders.
     */
    method ConvertFolder(i: nat, files: seq<Entry>, s: Setting, ghost tail: seq<Job>) returns (exc: Option<Exc>)
      requires s == Setting(entity, true, interimDataEntityPath in disk.dirs)
      modifies this
      ensures disk.dirs == old(disk).dirs
      ensures disk == Store(old(disk), interimDataEntityPath, Output(disk, interimDataEntityPath))
      ensures RunJobs(Output(old(disk), interimDataEntityPath), FolderJobs(i, files, s) + tail)
           == if exc.None? then RunJobs(Output(disk, interimDataEntityPath), tail)
              else (Output(disk, interimDataEntityPath), exc)
    {
      var out := interimDataEntityPath;
      ghost var d0 := disk;
      ghost var head := FolderJobs(i, files, s);
      StoreOutput(disk, out);
      var y := 0;
      while y < |files|
        invariant 0 <= y <= |files|
        invariant disk == Store(d0, out, Output(disk, out)) && disk.dirs == d0.dirs
        invariant RunJobs(Output(d0, out), head + tail) == RunJobs(Output(disk, out), head[y..] + tail)
        decreases |files| - y
      {
        assert (head[y..] + tail)[0] == FileJob(i, y, files[y], Attempt(files[y].node, i, s));
        assert (head[y..] + tail)[1..] == head[y + 1..] + tail;
        var rows := FileRows(files[y].node, entity, Some(i));
        match rows {
          case Ok(records) =>
            if out in disk.dirs {
              return Some(IsADirectoryError);
            }
            ghost var before := disk;
            WriteRows(records, i == 0 && y == 0);
            StoreTwice(d0, out, Output(before, out), Output(disk, out));
          case Raise(e) =>
            if !Caught(e) {
              return Some(e);
            }
        }
        y := y + 1;
      }
      assert head[y..] + tail == tail;
      return None;
    }

    /** The outer loop of `convert_json_to_csv_on_entity`, once the CSV's folder exists. */
    method ConvertFolders(folders: seq<Entry>) returns (exc: Option<Exc>)
      modifies this
      ensures (disk, exc) == RunFolders(old(disk), folders, interimDataEntityPath, entity)
    {
      var out := interimDataEntityPath;
      ghost var d1 := disk;
      var s := Setting(entity, true, out in disk.dirs);
      ghost var final := RunJobs(Output(d1, out), Jobs(folders, 0, s));
      StoreOutput(d1, out);
      var i := 0;
      while i < |folders|
        invariant 0 <= i <= |folders|
        invariant disk == Store(d1, out, Output(disk, out)) && disk.dirs == d1.dirs
        invariant RunJobs(Output(disk, out), Jobs(folders[i..], i, s)) == final
        decreases |folders| - i
      {
        assert folders[i..][0] == folders[i] && folders[i..][1..] == folders[i + 1..];
        var listing := FolderFiles(folders[i]);
        if listing.Raise? {
          JobsUnfoldFailure(folders[i..], i, s);
          return Some(listing.exc);
        }
        JobsUnfold(folders[i..], i, s);
        ghost var before := disk;
        exc := ConvertFolder(i, listing.value, s, Jobs(folders[i + 1..], i + 1, s));
        StoreTwice(d1, out, Output(before, out), Output(disk, out));
        if exc.Some? {
          return;
        }
        i := i + 1;
      }
      return None;
    }

    /**
     * `convert_json_to_csv_on_entity`: `raw` is what is at the raw data path. Returns the
     * exception that escapes, if one does.
     */
    method ConvertJsonToCsvOnEntity(raw: Found) returns (exc: Option<Exc>)
      modifies this
      ensures (disk, exc) == Convert(old(disk), raw, Name(rawDataPath), interimDataEntityPath, entity)
    {
      if raw.Missing? {
        return Some(FileNotFoundError);
      }
      if raw.BelowFile? || raw.node.File? {
        return Some(NotADirectoryError);
      }
      var folders := FindJson(Name(rawDataPath), raw.node.listing);
      exc := MakeInterimFolderIfAbsent();
      if exc.Some? {
        return;
      }
      exc := ConvertFolders(folders);
    }
  }
}
