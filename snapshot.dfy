/**
 * What both DataConverter classes do with one JSON snapshot and with the CSV they
 * accumulate: the gameweek rule, the annotation of every record, which exceptions
 * skip a file and which end the run, and the truncate-or-append rule for the output.
 */
module Snapshot {
  import opened Exceptions
  import opened Json
  import opened Text
  import opened Sorting
  import opened Paths
  import opened Disk

  /** One entity record, a flat JSON object. */
  type Record = map<string, Value>

  // ---------------------------------------------------------------- gameweek

  /** `v[key]` on a parsed JSON value. */
  function Subscript(v: Value, key: string): (r: Outcome<Value>)
    ensures r.Ok? <==> v.Obj? && key in v.fields
    ensures r.Ok? ==> r.value == v.fields[key]
    ensures r.Raise? ==> r.exc == (if v.Obj? then KeyError else TypeError)
  {
    match v
    case Obj(m) => if key in m then Ok(m[key]) else Raise(KeyError)
    case _ => Raise(TypeError)
  }

  /** `x["is_current"] is True` for one event: only the literal `true` counts. */
  function IsCurrent(x: Value): Outcome<bool> {
    match Subscript(x, "is_current")
    case Ok(flag) => Ok(flag == Bool(true))
    case Raise(e) => Raise(e)
  }

  /** `list(filter(lambda x: x["is_current"] is True, events))`: every event is tested. */
  function CurrentEvents(events: seq<Value>): Outcome<seq<Value>> {
    if events == [] then Ok([])
    else
      match IsCurrent(events[0])
      case Raise(e) => Raise(e)
      case Ok(c) =>
        match CurrentEvents(events[1..])
        case Raise(e) => Raise(e)
        case Ok(rest) => Ok(if c then [events[0]] + rest else rest)
  }

  /**
   * `_get_game_week(data)`: the id of the first current event, otherwise 0.
   * Iterating a dict yields its keys and a string its characters, so a non-empty
   * dict or string of events raises TypeError and an empty one yields 0.
   */
  function GameWeek(data: Value): Outcome<Value> {
    match Subscript(data, "events")
    case Raise(e) => Raise(e)
    case Ok(events) =>
      match events
      case Arr(evs) =>
        (match CurrentEvents(evs)
         case Raise(e) => Raise(e)
         case Ok(current) => if current == [] then Ok(Int(0)) else Subscript(current[0], "id"))
      case Obj(keys) => if keys == map[] then Ok(Int(0)) else Raise(TypeError)
      case Str(chars) => if chars == [] then Ok(Int(0)) else Raise(TypeError)
      case _ => Raise(TypeError)
  }

  /** Every event is an object carrying `is_current`. */
  ghost predicate WellFormedEvents(evs: seq<Value>) {
    forall k :: 0 <= k < |evs| ==> evs[k].Obj? && "is_current" in evs[k].fields
  }

  ghost predicate Current(e: Value)
    requires e.Obj? && "is_current" in e.fields
  {
    e.fields["is_current"] == Bool(true)
  }

  lemma {:induction false} CurrentEventsOfWellFormed(evs: seq<Value>)
    requires WellFormedEvents(evs)
    ensures CurrentEvents(evs).Ok?
    ensures var c := CurrentEvents(evs).value;
      && (c == [] <==> forall k :: 0 <= k < |evs| ==> !Current(evs[k]))
      && (forall k :: 0 <= k < |evs| && Current(evs[k]) && (forall j :: 0 <= j < k ==> !Current(evs[j]))
            ==> c[0] == evs[k])
  {
    if evs != [] {
      CurrentEventsOfWellFormed(evs[1..]);
      var c := CurrentEvents(evs).value;
      forall k | 0 <= k < |evs| && Current(evs[k]) && (forall j :: 0 <= j < k ==> !Current(evs[j]))
        ensures c[0] == evs[k]
      {
        if 0 < k {
          assert !Current(evs[0]);
          assert evs[1..][k - 1] == evs[k];
          assert forall j :: 0 <= j < k - 1 ==> evs[1..][j] == evs[j + 1];
        }
      }
      if c == [] {
        forall k | 0 <= k < |evs| ensures !Current(evs[k]) {
          if 0 < k { assert evs[1..][k - 1] == evs[k]; }
        }
      }
    }
  }

  /** The gameweek is the id of the first event whose `is_current` is `true`. */
  lemma GameWeekIsFirstCurrentId(m: map<string, Value>, evs: seq<Value>, k: nat)
    requires "events" in m && m["events"] == Arr(evs)
    requires WellFormedEvents(evs) && k < |evs|
    requires Current(evs[k]) && forall j :: 0 <= j < k ==> !Current(evs[j])
    requires "id" in evs[k].fields
    ensures GameWeek(Obj(m)) == Ok(evs[k].fields["id"])
  {
    CurrentEventsOfWellFormed(evs);
  }

  /** With no current event, or no event at all, the gameweek is 0. */
  lemma GameWeekZeroWithoutCurrent(m: map<string, Value>, evs: seq<Value>)
    requires "events" in m && m["events"] == Arr(evs)
    requires WellFormedEvents(evs) && forall k :: 0 <= k < |evs| ==> !Current(evs[k])
    ensures GameWeek(Obj(m)) == Ok(Int(0))
  {
    CurrentEventsOfWellFormed(evs);
  }

  /** `is True` is an identity test: a truthy 1 does not make an event current. */
  lemma GameWeekOnlyLiteralTrue(id: Value)
    ensures GameWeek(Obj(map["events" := Arr([Obj(map["is_current" := Int(1), "id" := id])])]))
            == Ok(Int(0))
    ensures GameWeek(Obj(map["events" := Arr([Obj(map["is_current" := Bool(true), "id" := id])])]))
            == Ok(id)
  {
    var bad := Obj(map["is_current" := Int(1), "id" := id]);
    assert CurrentEvents([bad]) == Ok([]);
    var good := Obj(map["is_current" := Bool(true), "id" := id]);
    assert IsCurrent(good) == Ok(true);
    assert [good][1..] == [] && [good] + [] == [good];
    assert CurrentEvents([good]) == Ok([good]);
  }

  /**
   * Every event is inspected, so the first malformed one raises even after a
   * current event: a non-object raises TypeError, a missing `is_current` KeyError.
   */
  lemma {:induction false} GameWeekRaisesOnMalformedEvent(m: map<string, Value>, evs: seq<Value>, k: nat)
    requires "events" in m && m["events"] == Arr(evs) && k < |evs|
    requires forall j :: 0 <= j < k ==> IsCurrent(evs[j]).Ok?
    requires IsCurrent(evs[k]).Raise?
    ensures GameWeek(Obj(m)) == Raise(if evs[k].Obj? then KeyError else TypeError)
  {
    CurrentEventsRaises(evs, k);
  }

  lemma {:induction false} CurrentEventsRaises(evs: seq<Value>, k: nat)
    requires k < |evs|
    requires forall j :: 0 <= j < k ==> IsCurrent(evs[j]).Ok?
    requires IsCurrent(evs[k]).Raise?
    ensures CurrentEvents(evs) == Raise(IsCurrent(evs[k]).exc)
  {
    if 0 < k {
      assert forall j :: 0 <= j < k - 1 ==> evs[1..][j] == evs[j + 1];
      CurrentEventsRaises(evs[1..], k - 1);
    }
  }

  // -------------------------------------------------------------- annotation

  /** The keys the per-record `update` writes. */
  function AnnotatedKeys(season: Option<nat>): set<string> {
    if season.Some? then {"download_time", "gameweek", "season"} else {"download_time", "gameweek"}
  }

  /** The dict passed to `update`: the snapshot's download time, the gameweek, and the season when given. */
  function Annotation(downloadTime: Value, gameweek: Value, season: Option<nat>): (a: Record)
    ensures a.Keys == AnnotatedKeys(season)
  {
    match season
    case Some(i) => map["download_time" := downloadTime, "gameweek" := gameweek, "season" := Int(i)]
    case None => map["download_time" := downloadTime, "gameweek" := gameweek]
  }

  /** `r` is `original` after `update(Annotation(...))`: those keys set, every other key unchanged. */
  ghost predicate AnnotatedFrom(r: Record, original: Record, downloadTime: Value, gameweek: Value, season: Option<nat>) {
    && r.Keys == original.Keys + AnnotatedKeys(season)
    && r["download_time"] == downloadTime
    && r["gameweek"] == gameweek
    && (season.Some? ==> r["season"] == Int(season.value))
    && (forall key :: key in original && key !in AnnotatedKeys(season) ==> r[key] == original[key])
  }

  /**
   * `list(map(lambda x: x.update({...}), records))`: a record that is not a dict raises
   * AttributeError; `data["download_time"]` is looked up once per record, so it raises
   * KeyError only when there is a record to annotate.
   */
  function Annotate(records: seq<Value>, data: map<string, Value>, gameweek: Value, season: Option<nat>)
    : (r: Outcome<seq<Record>>)
    ensures r.Ok? <==> (forall k :: 0 <= k < |records| ==> records[k].Obj?)
                        && (records != [] ==> "download_time" in data)
    ensures r.Ok? ==> |r.value| == |records|
    ensures r.Ok? ==> forall k :: 0 <= k < |records| ==>
      (AnnotatedFrom(r.value[k], records[k].fields, data["download_time"], gameweek, season))
    ensures r.Raise? ==>
      records != [] && r.exc == (if records[0].Obj? && "download_time" !in data then KeyError else AttributeError)
  {
    if records == [] then Ok([])
    else
      match records[0]
      case Obj(fields) =>
        if "download_time" !in data then Raise(KeyError)
        else
          (match Annotate(records[1..], data, gameweek, season)
           case Raise(e) => Raise(e)
           case Ok(rest) =>
             assert forall k :: 1 <= k < |records| ==> records[1..][k - 1] == records[k];
             Ok([fields + Annotation(data["download_time"], gameweek, season)] + rest))
      case _ => Raise(AttributeError)
  }

  /** The records of `data[entity]` as `pd.DataFrame` receives them, when it is a list. */
  function EntityItems(data: Value, entity: string): seq<Value> {
    if data.Obj? && entity in data.fields && data.fields[entity].Arr? then data.fields[entity].items else []
  }

  /**
   * The annotated rows of `data[entity]`. A missing entity raises KeyError; a number,
   * boolean or null is not iterable (TypeError); a non-empty dict or string yields
   * keys or characters, which have no `update` (AttributeError); an empty dict is an
   * empty frame, and `pd.DataFrame("")` raises ValueError.
   */
  function EntityRows(data: Value, entity: string, gameweek: Value, season: Option<nat>)
    : (r: Outcome<seq<Record>>)
    ensures r.Ok? ==> |r.value| == |EntityItems(data, entity)|
    ensures r.Ok? ==> forall k :: 0 <= k < |r.value| ==>
      data.Obj? && "download_time" in data.fields && EntityItems(data, entity)[k].Obj? &&
      AnnotatedFrom(r.value[k], EntityItems(data, entity)[k].fields, data.fields["download_time"], gameweek, season)
    ensures !data.Obj? ==> r == Raise(TypeError)
    ensures data.Obj? && entity !in data.fields ==> r == Raise(KeyError)
  {
    match data
    case Obj(m) =>
      if entity !in m then Raise(KeyError)
      else
        (match m[entity]
         case Arr(items) => Annotate(items, m, gameweek, season)
         case Obj(keys) => if keys == map[] then Ok([]) else Raise(AttributeError)
         case Str(chars) => if chars == [] then Raise(ValueError) else Raise(AttributeError)
         case _ => Raise(TypeError))
    case _ => Raise(TypeError)
  }

  // ----------------------------------------------------------- input files

  /** What reading a file with `json.load` finds. */
  datatype Content = Parsed(doc: Value) | NotJson | NotUtf8

  /** A directory entry: a file, or a directory listed in `iterdir` order. */
  datatype Node = File(content: Content) | Dir(listing: seq<Entry>)
  datatype Entry = Entry(name: string, node: Node)

  /**
   * What looking up a path finds: its node, nothing, or a regular file on the way to it
   * (where `iterdir` raises NotADirectoryError).
   */
  datatype Found = Found(node: Node) | Missing | BelowFile

  /** The rows one snapshot file contributes, or the exception reading it raises. */
  function FileRows(node: Node, entity: string, season: Option<nat>): Outcome<seq<Record>> {
    match node
    case Dir(_) => Raise(IsADirectoryError)
    case File(NotJson) => Raise(JSONDecodeError)
    case File(NotUtf8) => Raise(UnicodeDecodeError)
    case File(Parsed(doc)) =>
      match GameWeek(doc)
      case Raise(e) => Raise(e)
      case Ok(gw) => EntityRows(doc, entity, gw, season)
  }

  /** The exceptions `convert_json_to_csv_on_entity` catches; it skips the file and goes on. */
  predicate Caught(e: Exc) {
    e == TypeError || e == JSONDecodeError
  }

  /** `sorted` on paths in one directory compares their names. */
  predicate EntryLe(a: Entry, b: Entry) {
    LexLe(a.name, b.name)
  }

  lemma EntryLeTotalPreorder()
    ensures TotalPreorder(EntryLe)
  {
    forall a: Entry, b: Entry ensures EntryLe(a, b) || EntryLe(b, a) {
      LexLeTotal(a.name, b.name);
    }
    forall a: Entry, b: Entry, c: Entry | EntryLe(a, b) && EntryLe(b, c) ensures EntryLe(a, c) {
      LexLeTransitive(a.name, b.name, c.name);
    }
  }

  /** The entries whose suffix is exactly ".json", in listing order. */
  function JsonEntries(listing: seq<Entry>): (r: seq<Entry>)
    ensures forall e :: e in r <==> e in listing && Suffix(e.name) == ".json"
  {
    if listing == [] then []
    else (if Suffix(listing[0].name) == ".json" then [listing[0]] else []) + JsonEntries(listing[1..])
  }

  /** `sorted([f for f in folder.iterdir() if f.suffix == ".json"])`. */
  function JsonFiles(listing: seq<Entry>): seq<Entry> {
    Sort(JsonEntries(listing), EntryLe)
  }

  /** The snapshot files are exactly the ".json" entries, sorted by name. */
  lemma JsonFilesSortedSelection(listing: seq<Entry>)
    ensures Sorted(JsonFiles(listing), EntryLe)
    ensures forall e :: e in JsonFiles(listing) <==> e in listing && Suffix(e.name) == ".json"
  {
    EntryLeTotalPreorder();
    SortSorted(JsonEntries(listing), EntryLe);
    forall e ensures e in JsonFiles(listing) <==> e in JsonEntries(listing) {
      SortMembers(JsonEntries(listing), EntryLe, e);
    }
  }

  /** The snapshot files of one folder; `iterdir` on a file raises NotADirectoryError. */
  function FolderFiles(folder: Entry): Outcome<seq<Entry>> {
    match folder.node
    case File(_) => Raise(NotADirectoryError)
    case Dir(listing) => Ok(JsonFiles(listing))
  }

  // -------------------------------------------------------------- the run

  /**
   * One iteration of the loops: file `index` of folder `season` and what reading it
   * gives, or a folder that cannot be listed.
   */
  datatype Job =
    | FileJob(season: nat, index: nat, file: Entry, rows: Outcome<seq<Record>>)
    | ListFailure(exc: Exc)

  /**
   * What a run is configured with: the entity, whether records get a `season`, and
   * whether the output path is a directory, so that every write raises IsADirectoryError.
   */
  datatype Setting = Setting(entity: string, seasoned: bool, blocked: bool)

  /** The outcome of the `try` block for the file at `node` in folder `season`. */
  function Attempt(node: Node, season: nat, s: Setting): (r: Outcome<seq<Record>>)
    ensures r.Ok? ==> !s.blocked
  {
    var rows := FileRows(node, s.entity, if s.seasoned then Some(season) else None);
    if s.blocked && rows.Ok? then Raise(IsADirectoryError) else rows
  }

  /** The job's outcome is what the attempt on its file gives. */
  predicate Reads(job: Job, s: Setting) {
    job.FileJob? ==> job.rows == Attempt(job.file.node, job.season, s)
  }

  function FolderJobs(season: nat, files: seq<Entry>, s: Setting): (js: seq<Job>)
    ensures |js| == |files|
    ensures forall y :: 0 <= y < |files| ==>
      js[y] == FileJob(season, y, files[y], Attempt(files[y].node, season, s))
  {
    seq(|files|, y requires 0 <= y < |files| =>
      FileJob(season, y, files[y], Attempt(files[y].node, season, s)))
  }

  /** The iterations of the nested loops over `folders`, the first numbered `season`. */
  function Jobs(folders: seq<Entry>, season: nat, s: Setting): seq<Job>
    decreases |folders|
  {
    if folders == [] then []
    else
      match FolderFiles(folders[0])
      case Raise(e) => [ListFailure(e)]
      case Ok(files) => FolderJobs(season, files, s) + Jobs(folders[1..], season + 1, s)
  }

  /** One line of the CSV file. */
  datatype Line = Header | Row(record: Record)

  function Lines(rows: seq<Record>): (ls: seq<Line>)
    ensures |ls| == |rows| && forall k :: 0 <= k < |rows| ==> ls[k] == Row(rows[k])
  {
    seq(|rows|, k requires 0 <= k < |rows| => Row(rows[k]))
  }

  /** `to_csv` with mode "w" and a header when `truncate`, else mode "a" without one; `None` is no file. */
  function WriteCsv(file: Option<seq<Line>>, rows: seq<Record>, truncate: bool): seq<Line> {
    if truncate then [Header] + Lines(rows) else file.GetOr([]) + Lines(rows)
  }

  /** The iteration at position (0, 0), the only one that truncates the output. */
  predicate AtOrigin(job: Job) {
    job.FileJob? && job.season == 0 && job.index == 0
  }

  /**
   * The loops from a given state: the output file after the jobs, and the exception
   * that ended the run, if one did.
   */
  function RunJobs(file: Option<seq<Line>>, jobs: seq<Job>): (Option<seq<Line>>, Option<Exc>)
    decreases |jobs|
  {
    if jobs == [] then (file, None)
    else
      match jobs[0]
      case ListFailure(e) => (file, Some(e))
      case FileJob(_, _, _, Ok(rows)) => RunJobs(Some(WriteCsv(file, rows, AtOrigin(jobs[0]))), jobs[1..])
      case FileJob(_, _, _, Raise(e)) => if Caught(e) then RunJobs(file, jobs[1..]) else (file, Some(e))
  }

  // ------------------------------------------- what the run amounts to

  predicate Succeeded(job: Job) {
    job.FileJob? && job.rows.Ok?
  }

  /** The job raises an exception that is not caught. */
  predicate Crashes(job: Job) {
    job.ListFailure? || (job.rows.Raise? && !Caught(job.rows.exc))
  }

  /** No job raises an uncaught exception. */
  ghost predicate NoCrash(jobs: seq<Job>) {
    forall k :: 0 <= k < |jobs| ==> !Crashes(jobs[k])
  }

  /** No job but the first is at (0, 0). */
  ghost predicate OriginFirst(jobs: seq<Job>) {
    forall k :: 1 <= k < |jobs| ==> !AtOrigin(jobs[k])
  }

  /** The rows of the files that succeed, in job order. */
  function Written(jobs: seq<Job>): seq<Line> {
    if jobs == [] then []
    else (if Succeeded(jobs[0]) then Lines(jobs[0].rows.value) else []) + Written(jobs[1..])
  }

  /** Some file succeeds, so the output file is written at all. */
  predicate Touched(jobs: seq<Job>) {
    exists k :: 0 <= k < |jobs| && Succeeded(jobs[k])
  }

  lemma {:induction false} TouchedTail(jobs: seq<Job>)
    requires jobs != [] && !Succeeded(jobs[0])
    ensures Touched(jobs) <==> Touched(jobs[1..])
  {
    if Touched(jobs) {
      var k :| 0 <= k < |jobs| && Succeeded(jobs[k]);
      assert jobs[1..][k - 1] == jobs[k];
    }
    if Touched(jobs[1..]) {
      var k :| 0 <= k < |jobs| - 1 && Succeeded(jobs[1..][k]);
      assert jobs[k + 1] == jobs[1..][k];
    }
  }

  lemma {:induction false} UntouchedWritesNothing(jobs: seq<Job>)
    requires !Touched(jobs)
    ensures Written(jobs) == []
  {
    if jobs != [] {
      assert !Succeeded(jobs[0]);
      TouchedTail(jobs);
      UntouchedWritesNothing(jobs[1..]);
    }
  }

  /** Without an uncaught exception and away from (0, 0), the run appends the succeeding files' rows. */
  lemma {:induction false} RunJobsAppends(file: Option<seq<Line>>, jobs: seq<Job>)
    requires forall k :: 0 <= k < |jobs| ==> !Crashes(jobs[k]) && !AtOrigin(jobs[k])
    ensures RunJobs(file, jobs) == (if Touched(jobs) then Some(file.GetOr([]) + Written(jobs)) else file, None)
    decreases |jobs|
  {
    if jobs != [] {
      var rest := jobs[1..];
      assert forall k :: 0 <= k < |rest| ==> rest[k] == jobs[k + 1];
      assert !Crashes(jobs[0]) && !AtOrigin(jobs[0]);
      if Succeeded(jobs[0]) {
        var rows := jobs[0].rows.value;
        var f := Some(file.GetOr([]) + Lines(rows));
        assert RunJobs(file, jobs) == RunJobs(f, rest);
        RunJobsAppends(f, rest);
        if !Touched(rest) {
          UntouchedWritesNothing(rest);
          assert Lines(rows) + [] == Lines(rows);
        }
        assert file.GetOr([]) + Lines(rows) + Written(rest) == file.GetOr([]) + (Lines(rows) + Written(rest));
      } else {
        assert jobs[0].rows.Raise? && Caught(jobs[0].rows.exc);
        assert RunJobs(file, jobs) == RunJobs(file, rest);
        assert Written(jobs) == Written(rest);
        RunJobsAppends(file, rest);
        TouchedTail(jobs);
      }
    }
  }

  /** A first file that succeeds at the origin starts the CSV afresh, header first. */
  lemma FreshFileAccumulates(file: Option<seq<Line>>, jobs: seq<Job>)
    requires NoCrash(jobs) && OriginFirst(jobs)
    requires jobs != [] && AtOrigin(jobs[0]) && Succeeded(jobs[0])
    ensures RunJobs(file, jobs) == (Some([Header] + Written(jobs)), None)
  {
    var rest := jobs[1..];
    assert forall k :: 0 <= k < |rest| ==> rest[k] == jobs[k + 1];
    var rows := jobs[0].rows.value;
    var f := Some([Header] + Lines(rows));
    assert RunJobs(file, jobs) == RunJobs(f, rest);
    RunJobsAppends(f, rest);
    if !Touched(rest) {
      UntouchedWritesNothing(rest);
      assert Lines(rows) + [] == Lines(rows);
    }
    assert [Header] + Lines(rows) + Written(rest) == [Header] + (Lines(rows) + Written(rest));
  }

  /**
   * The accumulation rule: with no uncaught exception, the output is the header and
   * every succeeding file's rows when the iteration at (0, 0) succeeds; otherwise the
   * old contents (or no file) followed by those rows. A failing first file therefore
   * leaves the old contents in place and no header is written.
   */
  lemma RunJobsAccumulates(file: Option<seq<Line>>, jobs: seq<Job>)
    requires NoCrash(jobs) && OriginFirst(jobs)
    ensures RunJobs(file, jobs) ==
      (if jobs != [] && AtOrigin(jobs[0]) && Succeeded(jobs[0]) then Some([Header] + Written(jobs))
       else if Touched(jobs) then Some(file.GetOr([]) + Written(jobs))
       else file,
       None)
  {
    if jobs != [] && AtOrigin(jobs[0]) {
      var rest := jobs[1..];
      assert forall k :: 0 <= k < |rest| ==> rest[k] == jobs[k + 1];
      if Succeeded(jobs[0]) {
        FreshFileAccumulates(file, jobs);
      } else {
        assert jobs[0].rows.Raise? && Caught(jobs[0].rows.exc);
        assert RunJobs(file, jobs) == RunJobs(file, rest);
        assert Written(jobs) == Written(rest);
        RunJobsAppends(file, rest);
        TouchedTail(jobs);
      }
    } else {
      RunJobsAppends(file, jobs);
    }
  }

  /** The first uncaught exception ends the run: the output is what the jobs before it wrote. */
  lemma {:induction false} RunJobsStopsAtCrash(file: Option<seq<Line>>, jobs: seq<Job>, k: nat)
    requires k < |jobs| && Crashes(jobs[k])
    requires forall j :: 0 <= j < k ==> !Crashes(jobs[j])
    ensures RunJobs(file, jobs).0 == RunJobs(file, jobs[..k]).0
    ensures RunJobs(file, jobs).1 == Some(if jobs[k].ListFailure? then jobs[k].exc else jobs[k].rows.exc)
    decreases k
  {
    if 0 < k {
      var rest := jobs[1..];
      assert forall j :: 0 <= j < |rest| ==> rest[j] == jobs[j + 1];
      assert jobs[..k][1..] == rest[..k - 1];
      assert !Crashes(jobs[0]);
      if Succeeded(jobs[0]) {
        RunJobsStopsAtCrash(Some(WriteCsv(file, jobs[0].rows.value, AtOrigin(jobs[0]))), rest, k - 1);
      } else {
        RunJobsStopsAtCrash(file, rest, k - 1);
      }
    }
  }

  /** The number of records the succeeding files hold under the entity. */
  function RecordCount(jobs: seq<Job>, entity: string): nat {
    if jobs == [] then 0
    else
      (if Succeeded(jobs[0]) && jobs[0].file.node.File? && jobs[0].file.node.content.Parsed?
       then |EntityItems(jobs[0].file.node.content.doc, entity)| else 0)
      + RecordCount(jobs[1..], entity)
  }

  /** Annotation keeps one row per record: the rows written number the records of the succeeding files. */
  lemma {:induction false} WrittenCountsRecords(jobs: seq<Job>, s: Setting)
    requires forall k :: 0 <= k < |jobs| ==> Reads(jobs[k], s)
    ensures |Written(jobs)| == RecordCount(jobs, s.entity)
  {
    if jobs != [] {
      assert forall k :: 0 <= k < |jobs| - 1 ==> jobs[1..][k] == jobs[k + 1];
      WrittenCountsRecords(jobs[1..], s);
      if Succeeded(jobs[0]) {
        assert Reads(jobs[0], s);
        var node := jobs[0].file.node;
        assert node.File? && node.content.Parsed?;
      }
    }
  }

  lemma JobsUnfold(folders: seq<Entry>, season: nat, s: Setting)
    requires folders != [] && FolderFiles(folders[0]).Ok?
    ensures Jobs(folders, season, s)
         == FolderJobs(season, FolderFiles(folders[0]).value, s)
            + Jobs(folders[1..], season + 1, s)
  {
  }

  ghost predicate AllRead(js: seq<Job>, s: Setting) {
    forall k :: 0 <= k < |js| ==> Reads(js[k], s)
  }

  lemma AllReadConcat(head: seq<Job>, tail: seq<Job>, s: Setting)
    requires AllRead(head, s) && AllRead(tail, s)
    ensures AllRead(head + tail, s)
  {
    forall k | 0 <= k < |head + tail| ensures Reads((head + tail)[k], s) {
      if k >= |head| { assert (head + tail)[k] == tail[k - |head|]; } else { assert (head + tail)[k] == head[k]; }
    }
  }

  /** Every job carries the attempt on its own file. */
  lemma {:induction false} JobsRead(folders: seq<Entry>, season: nat, s: Setting)
    ensures AllRead(Jobs(folders, season, s), s)
    decreases |folders|
  {
    if folders == [] {
    } else if FolderFiles(folders[0]).Raise? {
      JobsUnfoldFailure(folders, season, s);
    } else {
      var head := FolderJobs(season, FolderFiles(folders[0]).value, s);
      assert AllRead(head, s);
      JobsRead(folders[1..], season + 1, s);
      JobsUnfold(folders, season, s);
      AllReadConcat(head, Jobs(folders[1..], season + 1, s), s);
    }
  }

  lemma JobsUnfoldFailure(folders: seq<Entry>, season: nat, s: Setting)
    requires folders != [] && FolderFiles(folders[0]).Raise?
    ensures Jobs(folders, season, s) == [ListFailure(FolderFiles(folders[0]).exc)]
  {
  }

  lemma FolderJobsAt(season: nat, files: seq<Entry>, s: Setting)
    ensures var js := FolderJobs(season, files, s);
      forall k :: 0 <= k < |js| ==> js[k].FileJob? && js[k].season == season && js[k].index == k
  {
  }

  ghost predicate SeasonsFrom(js: seq<Job>, season: nat) {
    forall k :: 0 <= k < |js| && js[k].FileJob? ==> season <= js[k].season
  }

  lemma SeasonsFromConcat(head: seq<Job>, tail: seq<Job>, season: nat)
    requires SeasonsFrom(head, season) && SeasonsFrom(tail, season + 1)
    ensures SeasonsFrom(head + tail, season)
  {
    forall k | 0 <= k < |head + tail| && (head + tail)[k].FileJob? ensures season <= (head + tail)[k].season {
      if k >= |head| { assert (head + tail)[k] == tail[k - |head|]; }
    }
  }

  /** Every job of the folders numbered from `season` is at a season no lower. */
  lemma {:induction false} JobsSeasonsFrom(folders: seq<Entry>, season: nat, s: Setting)
    ensures SeasonsFrom(Jobs(folders, season, s), season)
    decreases |folders|
  {
    if folders == [] {
    } else if FolderFiles(folders[0]).Raise? {
      JobsUnfoldFailure(folders, season, s);
    } else {
      var head := FolderJobs(season, FolderFiles(folders[0]).value, s);
      FolderJobsAt(season, FolderFiles(folders[0]).value, s);
      JobsSeasonsFrom(folders[1..], season + 1, s);
      JobsUnfold(folders, season, s);
      SeasonsFromConcat(head, Jobs(folders[1..], season + 1, s), season);
    }
  }

  ghost predicate InOrder(js: seq<Job>) {
    forall k, l :: 0 <= k < l < |js| && js[k].FileJob? && js[l].FileJob? ==>
      js[k].season < js[l].season || (js[k].season == js[l].season && js[k].index < js[l].index)
  }

  lemma InOrderConcat(head: seq<Job>, tail: seq<Job>, season: nat)
    requires forall k :: 0 <= k < |head| ==> head[k].FileJob? && head[k].season == season && head[k].index == k
    requires InOrder(tail) && SeasonsFrom(tail, season + 1)
    ensures InOrder(head + tail)
  {
    var js := head + tail;
    forall k, l | 0 <= k < l < |js| && js[k].FileJob? && js[l].FileJob?
      ensures js[k].season < js[l].season || (js[k].season == js[l].season && js[k].index < js[l].index)
    {
      if l < |head| {
        assert js[k] == head[k] && js[l] == head[l];
      } else if k < |head| {
        assert js[k] == head[k] && js[l] == tail[l - |head|];
      } else {
        assert js[k] == tail[k - |head|] && js[l] == tail[l - |head|];
      }
    }
  }

  /** The iterations come in (folder, file) order. */
  lemma {:induction false} JobsInOrder(folders: seq<Entry>, season: nat, s: Setting)
    ensures InOrder(Jobs(folders, season, s))
    decreases |folders|
  {
    if folders == [] {
    } else if FolderFiles(folders[0]).Raise? {
      JobsUnfoldFailure(folders, season, s);
    } else {
      var head := FolderJobs(season, FolderFiles(folders[0]).value, s);
      FolderJobsAt(season, FolderFiles(folders[0]).value, s);
      JobsInOrder(folders[1..], season + 1, s);
      JobsSeasonsFrom(folders[1..], season + 1, s);
      JobsUnfold(folders, season, s);
      InOrderConcat(head, Jobs(folders[1..], season + 1, s), season);
    }
  }

  ghost predicate FailureLast(js: seq<Job>) {
    forall k :: 0 <= k < |js| - 1 ==> js[k].FileJob?
  }

  lemma FailureLastConcat(head: seq<Job>, tail: seq<Job>)
    requires forall k :: 0 <= k < |head| ==> head[k].FileJob?
    requires FailureLast(tail)
    ensures FailureLast(head + tail)
  {
    forall k | 0 <= k < |head + tail| - 1 ensures (head + tail)[k].FileJob? {
      if k >= |head| { assert (head + tail)[k] == tail[k - |head|]; }
    }
  }

  /** An unlistable folder ends the loops: its failure is the last iteration. */
  lemma {:induction false} JobsFailureLast(folders: seq<Entry>, season: nat, s: Setting)
    ensures FailureLast(Jobs(folders, season, s))
    decreases |folders|
  {
    if folders == [] {
    } else if FolderFiles(folders[0]).Raise? {
      JobsUnfoldFailure(folders, season, s);
    } else {
      var head := FolderJobs(season, FolderFiles(folders[0]).value, s);
      FolderJobsAt(season, FolderFiles(folders[0]).value, s);
      JobsFailureLast(folders[1..], season + 1, s);
      JobsUnfold(folders, season, s);
      FailureLastConcat(head, Jobs(folders[1..], season + 1, s));
    }
  }

  /** Only the first iteration can be at (0, 0), the one that truncates the output. */
  lemma OnlyFirstJobAtOrigin(folders: seq<Entry>, s: Setting)
    ensures OriginFirst(Jobs(folders, 0, s))
  {
    var js := Jobs(folders, 0, s);
    JobsInOrder(folders, 0, s);
    JobsFailureLast(folders, 0, s);
    forall k | 1 <= k < |js| ensures !AtOrigin(js[k]) {
      assert js[0].FileJob?;
      if js[k].FileJob? {
        assert js[0].season < js[k].season || (js[0].season == js[k].season && js[0].index < js[k].index);
      }
    }
  }

  // ------------------------------------------------- the CSV file on disk

  /** The CSV file at `p`, if there is one. */
  function Output(d: Disk<seq<Line>>, p: Path): Option<seq<Line>> {
    if p in d.files then Some(d.files[p]) else None
  }

  /** The disk with `f` at `p`; `None` leaves the disk as it is. */
  function Store(d: Disk<seq<Line>>, p: Path, f: Option<seq<Line>>): (r: Disk<seq<Line>>)
    ensures r.dirs == d.dirs
    ensures Output(r, p) == (if f.Some? then f else Output(d, p))
    ensures forall q :: q != p ==> Output(r, q) == Output(d, q)
  {
    match f
    case None => d
    case Some(c) => d.(files := d.files[p := c])
  }

  /** Storing what is already there changes nothing. */
  lemma StoreOutput(d: Disk<seq<Line>>, p: Path)
    ensures Store(d, p, Output(d, p)) == d
  {
    if p in d.files {
      assert d.files[p := d.files[p]] == d.files;
    }
  }

  /** A later store to the same path replaces an earlier one. */
  lemma StoreTwice(d: Disk<seq<Line>>, p: Path, f: Option<seq<Line>>, g: Option<seq<Line>>)
    ensures Store(Store(d, p, f), p, g) == Store(d, p, if g.Some? then g else f)
  {
  }
}
