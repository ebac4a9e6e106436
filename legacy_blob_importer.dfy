/**
 * The older `BlobImporter`: one configured container, downloaded straight into the raw data
 * folder.
 */
module LegacyBlobImporter {
  import opened Exceptions
  import opened Json
  import opened Paths
  import opened Disk
  import opened Snapshot
  import opened Blobs
  import Newer = BlobImporter

  /** The attributes as `__init__` leaves them: `None` for an attribute it never assigns. */
  datatype Attributes = Attributes(configFilePath: Option<Path>, config: Value, rawDataPath: Option<Path>)

  /**
   * `__init__` as written: the private paths are assigned only when their argument is `None`.
   * Given a config path, reading the unassigned private attribute raises AttributeError; given
   * a raw data path, that attribute stays unassigned.
   */
  function InitAsWritten(root: Path, load: Path -> Value, configFilePath: Option<Path>, rawDataPath: Option<Path>)
    : Outcome<Attributes>
  {
    if configFilePath.Some? then Raise(AttributeError)
    else
      Ok(Attributes(Some(ConfigFilePath(root)), load(ConfigFilePath(root)),
                    if rawDataPath.None? then Some(RawDataPath(root)) else None))
  }

  /** `__init__` as evidently intended, and as the newer importer does it: every argument is kept. */
  function Init(root: Path, load: Path -> Value, configFilePath: Option<Path>, rawDataPath: Option<Path>)
    : (a: Attributes)
    ensures a.configFilePath == Some(Newer.Configure(root, load, configFilePath, rawDataPath).configFilePath)
    ensures a.rawDataPath == Some(Newer.Configure(root, load, configFilePath, rawDataPath).rawDataPath)
    ensures a.config == load(a.configFilePath.value)
  {
    var s := Newer.Configure(root, load, configFilePath, rawDataPath);
    Attributes(Some(s.configFilePath), s.config, Some(s.rawDataPath))
  }

  /**
   * `download_all_blobs_in_container`: the account URL and the `FPL_2021_CONTAINER` name from
   * the config's "azure" section, the container listed, then the raw data folder itself (not a
   * subfolder, and not created) listed and filled.
   */
  function DownloadAllBlobs(d: Disk<string>, a: Attributes, service: Service): (Disk<string>, Option<Exc>) {
    match Subscript(a.config, "azure")
    case Raise(e) => (d, Some(e))
    case Ok(azure) =>
      match Subscript(azure, "STORAGE_ACCOUNT_URL")
      case Raise(e) => (d, Some(e))
      case Ok(url) =>
        match Subscript(azure, "FPL_2021_CONTAINER")
        case Raise(e) => (d, Some(e))
        case Ok(name) =>
          if !url.Str? || !name.Str? then (d, Some(TypeError))
          else if url.s + "/" + name.s !in service then (d, Some(ResourceNotFoundError))
          else if a.rawDataPath.None? then (d, Some(AttributeError))
          else Fetch(d, a.rawDataPath.value, service[url.s + "/" + name.s])
  }

  /**
   * As written, passing a config path makes construction fail, and passing a raw data path
   * makes every download fail: at the latest with AttributeError once the container is found.
   */
  lemma InitAsWrittenLosesArguments(root: Path, load: Path -> Value, configFilePath: Option<Path>, rawDataPath: Option<Path>,
                                    d: Disk<string>, service: Service)
    ensures configFilePath.Some? ==> InitAsWritten(root, load, configFilePath, rawDataPath) == Raise(AttributeError)
    ensures configFilePath.None? && rawDataPath.Some? ==>
      && InitAsWritten(root, load, configFilePath, rawDataPath).Ok?
      && var a := InitAsWritten(root, load, configFilePath, rawDataPath).value;
         && a.rawDataPath == None
         && DownloadAllBlobs(d, a, service).1.Some?
         && DownloadAllBlobs(d, a, service).0 == d
  {
  }

  /** The only arguments that the constructor as written handles as intended are none at all. */
  lemma InitAsWrittenAgreesWithoutArguments(root: Path, load: Path -> Value, configFilePath: Option<Path>, rawDataPath: Option<Path>)
    ensures InitAsWritten(root, load, configFilePath, rawDataPath) == Ok(Init(root, load, configFilePath, rawDataPath))
            <==> configFilePath.None? && rawDataPath.None?
  {
  }

  /**
   * Once the container is found and the raw data folder is known, a raw data path that is no
   * directory raises where the lookup of it stops, with the disk unchanged: nothing creates
   * it. A regular file on the way gives NotADirectoryError, a missing path FileNotFoundError.
   */
  lemma MissingRawFolder(d: Disk<string>, a: Attributes, service: Service, i: int)
    requires a.rawDataPath.Some? && !Passable(d, a.rawDataPath.value) && StopsAt(d, Walk(a.rawDataPath.value), i)
    requires var r := DownloadAllBlobs(d, a, service); r.1 != Some(KeyError) && r.1 != Some(TypeError)
                                                       && r.1 != Some(ResourceNotFoundError)
    ensures var qs := Walk(a.rawDataPath.value);
      DownloadAllBlobs(d, a, service)
      == (d, Some(if qs[i] in d.files then NotADirectoryError else FileNotFoundError))
  {
    WalkErrorAt(d, Walk(a.rawDataPath.value), i);
  }

  /**
   * A finished download writes only files directly inside the raw data folder, one per listed
   * blob of the `FPL_2021_CONTAINER` container, and creates no folder.
   */
  lemma WritesIntoRawFolder(d: Disk<string>, a: Attributes, service: Service)
    requires DownloadAllBlobs(d, a, service).1 == None
    ensures a.rawDataPath.Some?
    ensures var d2 := DownloadAllBlobs(d, a, service).0;
      var azure := a.config.fields["azure"];
      var key := azure.fields["STORAGE_ACCOUNT_URL"].s + "/" + azure.fields["FPL_2021_CONTAINER"].s;
      && key in service
      && d2.dirs == d.dirs
      && forall q :: q in d2.files && q !in d.files ==>
           exists b :: b in service[key].listing && q == Join(a.rawDataPath.value, b)
  {
    var azure := a.config.fields["azure"];
    var key := azure.fields["STORAGE_ACCOUNT_URL"].s + "/" + azure.fields["FPL_2021_CONTAINER"].s;
    FetchFiles(d, a.rawDataPath.value, service[key]);
  }

  /** The older importer, built with the intended constructor. */
  class BlobImporter {
    const attributes: Attributes
    var disk: Disk<string>

    /** `__init__` as intended. */
    constructor (disk: Disk<string>, root: Path, load: Path -> Value,
                 configFilePath: Option<Path> := None, rawDataPath: Option<Path> := None)
      ensures attributes == Init(root, load, configFilePath, rawDataPath)
      ensures this.disk == disk
    {
      attributes := Init(root, load, configFilePath, rawDataPath);
      this.disk := disk;
    }

    /** `download_all_blobs_in_container`: returns the exception that escapes, if one does. */
    method DownloadAllBlobsInContainer(service: Service) returns (exc: Option<Exc>)
      modifies this
      ensures (disk, exc) == DownloadAllBlobs(old(disk), attributes, service)
    {
      var azure := Subscript(attributes.config, "azure");
      if azure.Raise? {
        return Some(azure.exc);
      }
      var url := Subscript(azure.value, "STORAGE_ACCOUNT_URL");
      if url.Raise? {
        return Some(url.exc);
      }
      var name := Subscript(azure.value, "FPL_2021_CONTAINER");
      if name.Raise? {
        return Some(name.exc);
      }
      if !url.value.Str? || !name.value.Str? {
        return Some(TypeError);
      }
      var key := url.value.s + "/" + name.value.s;
      if key !in service {
        return Some(ResourceNotFoundError);
      }
      if attributes.rawDataPath.None? {
        return Some(AttributeError);
      }
      var d', e, bar := DownloadNew(disk, attributes.rawDataPath.value, service[key]);
      disk := d';
      exc := e;
    }
  }
}
