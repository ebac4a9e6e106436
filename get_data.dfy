/** `download_all`: the single-container downloader. */
module GetData {
  import opened Exceptions
  import opened Json
  import opened Paths
  import opened Disk
  import opened Blobs

  /** The default download folder, `Path("data/raw")`. */
  const DefaultDataDir := Path(false, ["data", "raw"])

  /**
   * `download_all`: creates `<data_dir_path>/<container_name>` with its parents, lists the
   * container at `<storage_account_url>/<container_name>`, and writes every listed blob whose
   * name is not among the folder's ".json" names.
   */
  method DownloadAll(d: Disk<string>, service: Service, storageAccountUrl: string, containerName: string,
                     dataDirPath: Path := DefaultDataDir)
    returns (d': Disk<string>, exc: Option<Exc>)
    ensures (d', exc) == DownloadContainer(d, dataDirPath, Str(storageAccountUrl), Str(containerName), service)
  {
    var downloadPath := Child(dataDirPath, containerName);
    var made := MkdirParents(d, downloadPath);
    if made.Raise? {
      return d, Some(made.exc);
    }
    var key := storageAccountUrl + "/" + containerName;
    if key !in service {
      return made.value, Some(ResourceNotFoundError);
    }
    var bar;
    d', exc, bar := DownloadNew(made.value, downloadPath, service[key]);
  }

  /**
   * With the default folder and a non-empty container name, the download folder is
   * `data/raw/<container_name>`, and it exists afterwards once it could be created.
   */
  lemma DefaultDownloadFolder(d: Disk<string>, service: Service, url: string, name: string)
    requires name != ""
    requires MkdirParents(d, Path(false, ["data", "raw", name])).Ok?
    ensures Child(DefaultDataDir, name) == Path(false, ["data", "raw", name])
    ensures IsDir(DownloadContainer(d, DefaultDataDir, Str(url), Str(name), service).0, Path(false, ["data", "raw", name]))
  {
    assert Child(DefaultDataDir, name) == Path(false, ["data", "raw", name]);
    ContainerFolder(d, DefaultDataDir, Str(url), Str(name), service);
  }
}
