/** The `BlobImporter` that downloads every configured container into a folder of its own. */
module BlobImporter {
  import opened Exceptions
  import opened Json
  import opened Paths
  import opened Disk
  import opened Snapshot
  import opened Blobs

  /** The attributes `__init__` sets: the config file, the config read from it, the raw data folder. */
  datatype Settings = Settings(configFilePath: Path, config: Value, rawDataPath: Path)

  /**
   * `__init__`: each path argument, when given, replaces its default under the repository
   * root; the config is what loading the chosen config file yields.
   */
  function Configure(root: Path, load: Path -> Value, configFilePath: Option<Path>, rawDataPath: Option<Path>)
    : (s: Settings)
    ensures s.configFilePath == (if configFilePath.Some? then configFilePath.value else ConfigFilePath(root))
    ensures s.rawDataPath == (if rawDataPath.Some? then rawDataPath.value else RawDataPath(root))
    ensures s.config == load(s.configFilePath)
  {
    var file := configFilePath.GetOr(ConfigFilePath(root));
    Settings(file, load(file), rawDataPath.GetOr(RawDataPath(root)))
  }

  /** `for x in v`: a list yields its items and a string its characters; a scalar raises TypeError. */
  function Iterate(v: Value): (r: Outcome<seq<Value>>)
    ensures r.Ok? <==> v.Arr? || v.Str?
    ensures v.Arr? ==> r == Ok(v.items)
    ensures v.Str? ==> r.Ok? && |r.value| == |v.s| && forall i :: 0 <= i < |v.s| ==> r.value[i] == Str([v.s[i]])
  {
    match v
    case Arr(items) => Ok(items)
    case Str(s) => Ok(seq(|s|, i requires 0 <= i < |s| => Str([s[i]])))
    case _ => Raise(TypeError)
  }

  /** The container loop: each container in turn, until one raises. */
  function ContainerLoop(d: Disk<string>, raw: Path, url: Value, names: seq<Value>, service: Service)
    : (Disk<string>, Option<Exc>)
    decreases |names|
  {
    if names == [] then (d, None)
    else
      var r := DownloadContainer(d, raw, url, names[0], service);
      if r.1.Some? then r else ContainerLoop(r.0, raw, url, names[1..], service)
  }

  /**
   * `download_blobs_in_containers`: reads the account URL, then the container list, from the
   * config's "azure" section, and runs the container loop over that list.
   */
  function DownloadAllContainers(d: Disk<string>, config: Value, raw: Path, service: Service)
    : (Disk<string>, Option<Exc>)
  {
    match Subscript(config, "azure")
    case Raise(e) => (d, Some(e))
    case Ok(azure) =>
      match Subscript(azure, "STORAGE_ACCOUNT_URL")
      case Raise(e) => (d, Some(e))
      case Ok(url) =>
        match Subscript(azure, "STORAGE_CONTAINERS")
        case Raise(e) => (d, Some(e))
        case Ok(containers) =>
          match Iterate(containers)
          case Raise(e) => (d, Some(e))
          case Ok(names) => ContainerLoop(d, raw, url, names, service)
  }

  /** Containers are processed in config order: the loop over `a + b` is `a`'s, then `b`'s. */
  lemma {:induction false} ContainerLoopConcat(d: Disk<string>, raw: Path, url: Value, a: seq<Value>, b: seq<Value>, service: Service)
    ensures ContainerLoop(d, raw, url, a + b, service) ==
      var r := ContainerLoop(d, raw, url, a, service);
      if r.1.Some? then r else ContainerLoop(r.0, raw, url, b, service)
    decreases |a|
  {
    if a == [] {
      assert a + b == b;
    } else {
      assert (a + b)[0] == a[0];
      assert (a + b)[1..] == a[1..] + b;
      var r := DownloadContainer(d, raw, url, a[0], service);
      if r.1.None? {
        ContainerLoopConcat(r.0, raw, url, a[1..], b, service);
      }
    }
  }

  /** The container loop never removes a folder. */
  lemma {:induction false} ContainerLoopDirsGrow(d: Disk<string>, raw: Path, url: Value, names: seq<Value>, service: Service)
    ensures d.dirs <= ContainerLoop(d, raw, url, names, service).0.dirs
    decreases |names|
  {
    if names != [] {
      ContainerDirsGrow(d, raw, url, names[0], service);
      var r := DownloadContainer(d, raw, url, names[0], service);
      if r.1.None? {
        ContainerLoopDirsGrow(r.0, raw, url, names[1..], service);
      }
    }
  }

  /** After a finished loop every container name was a string and has its folder under `raw`. */
  lemma {:induction false} ContainerLoopFolders(d: Disk<string>, raw: Path, url: Value, names: seq<Value>, service: Service)
    requires ContainerLoop(d, raw, url, names, service).1 == None
    ensures forall n :: n in names ==> n.Str? && IsDir(ContainerLoop(d, raw, url, names, service).0, Child(raw, n.s))
    decreases |names|
  {
    if names != [] {
      var r := DownloadContainer(d, raw, url, names[0], service);
      var last := ContainerLoop(r.0, raw, url, names[1..], service).0;
      ContainerRerun(d, raw, url, names[0], service);
      ContainerFolder(d, raw, url, names[0], service);
      ContainerLoopDirsGrow(r.0, raw, url, names[1..], service);
      ContainerLoopFolders(r.0, raw, url, names[1..], service);
      assert forall n :: n in names <==> n == names[0] || n in names[1..];
    }
  }

  /** A config without an "azure" section, or without either key in it, raises before any disk change. */
  lemma ConfigKeysRequired(d: Disk<string>, config: Value, raw: Path, service: Service)
    requires config.Obj?
    requires "azure" !in config.fields
      || (config.fields["azure"].Obj? && ("STORAGE_ACCOUNT_URL" !in config.fields["azure"].fields
                                         || "STORAGE_CONTAINERS" !in config.fields["azure"].fields))
    ensures DownloadAllContainers(d, config, raw, service) == (d, Some(KeyError))
  {
  }

  /** The newer importer: its settings and the disk it downloads to. */
  class BlobImporter {
    const configFilePath: Path
    const config: Value
    const rawDataPath: Path
    var disk: Disk<string>

    /** `__init__`. */
    constructor (disk: Disk<string>, root: Path, load: Path -> Value,
                 configFilePath: Option<Path> := None, rawDataPath: Option<Path> := None)
      ensures Settings(this.configFilePath, config, this.rawDataPath) == Configure(root, load, configFilePath, rawDataPath)
      ensures this.disk == disk
    {
      var s := Configure(root, load, configFilePath, rawDataPath);
      this.configFilePath := s.configFilePath;
      this.config := s.config;
      this.rawDataPath := s.rawDataPath;
      this.disk := disk;
    }

    /** One pass of the container loop: the folder, the listing, the selection and the writes. */
    method DownloadContainer(url: Value, name: Value, service: Service) returns (exc: Option<Exc>)
      modifies this
      ensures (disk, exc) == Blobs.DownloadContainer(old(disk), rawDataPath, url, name, service)
    {
      if !name.Str? {
        return Some(TypeError);
      }
      var dataPath := Child(rawDataPath, name.s);
      var made := MkdirParents(disk, dataPath);
      if made.Raise? {
        return Some(made.exc);
      }
      disk := made.value;
      if !url.Str? {
        return Some(TypeError);
      }
      var key := url.s + "/" + name.s;
      if key !in service {
        return Some(ResourceNotFoundError);
      }
      var d', e, bar := DownloadNew(disk, dataPath, service[key]);
      disk := d';
      exc := e;
    }

    /** `download_blobs_in_containers`: returns the exception that escapes, if one does. */
    method DownloadBlobsInContainers(service: Service) returns (exc: Option<Exc>)
      modifies this
      ensures (disk, exc) == DownloadAllContainers(old(disk), config, rawDataPath, service)
    {
      var azure := Subscript(config, "azure");
      if azure.Raise? {
        return Some(azure.exc);
      }
      var url := Subscript(azure.value, "STORAGE_ACCOUNT_URL");
      if url.Raise? {
        return Some(url.exc);
      }
      var containers := Subscript(azure.value, "STORAGE_CONTAINERS");
      if containers.Raise? {
        return Some(containers.exc);
      }
      var names := Iterate(containers.value);
      if names.Raise? {
        return Some(names.exc);
      }
      ghost var d0 := disk;
      var i := 0;
      while i < |names.value|
        invariant i <= |names.value|
        invariant ContainerLoop(d0, rawDataPath, url.value, names.value, service)
               == ContainerLoop(disk, rawDataPath, url.value, names.value[i..], service)
        decreases |names.value| - i
      {
        assert names.value[i..][0] == names.value[i] && names.value[i..][1..] == names.value[i + 1..];
        exc := DownloadContainer(url.value, names.value[i], service);
        if exc.Some? {
          return;
        }
        i := i + 1;
      }
      return None;
    }
  }
}
