/**
 * The rule the three blob downloaders share: which blobs of a container listing are fetched,
 * and the loop that writes each one into the download folder.
 */
module Blobs {
  import opened Exceptions
  import opened Text
  import opened Json
  import opened Paths
  import opened Disk

  /** A blob's bytes as `.decode("utf-8")` sees them. */
  datatype Blob = Utf8(text: string) | NotUtf8

  /** One container of the blob service: the names `list_blobs()` yields, and each blob. */
  datatype Container = Container(listing: seq<string>, blobs: map<string, Blob>)

  /** The blob service, by container URL (`<account url>/<container name>`). */
  type Service = map<string, Container>

  /** A progress bar: its maximum and how many steps were taken. */
  datatype Bar = Bar(max: nat, count: nat)

  /** `Path(dir, name)`: an empty name adds no component. */
  function Child(dir: Path, name: string): Path {
    if name == "" then dir else Join(dir, name)
  }

  lemma ChildInjective(dir: Path, a: string, b: string)
    ensures Child(dir, a) == Child(dir, b) <==> a == b
  {
    if a != b && a != "" && b != "" {
      assert Child(dir, a).parts[|dir.parts|] == a;
    }
  }

  /** A name containing ".json" is not empty. */
  lemma JsonNameNotEmpty(b: string)
    requires Contains(b, ".json")
    ensures b != ""
  {
  }

  // ---------------------------------------------------------------------------------
  // Selection
  // ---------------------------------------------------------------------------------

  /** The local names that count as downloaded already: those containing ".json". */
  function Present(local: set<string>): (r: set<string>)
    ensures forall n :: n in r <==> n in local && Contains(n, ".json")
  {
    set n | n in local && Contains(n, ".json")
  }

  /** The listed names that would count as downloaded, were they all on disk. */
  function JsonNames(listing: seq<string>): (r: set<string>)
    ensures forall n :: n in r <==> n in listing && Contains(n, ".json")
  {
    Present(set n | n in listing)
  }

  /** `[blob for blob in listing if blob not in present]`. */
  function Selection(listing: seq<string>, present: set<string>): seq<string>
    decreases |listing|
  {
    if listing == [] then []
    else (if listing[0] in present then [] else [listing[0]]) + Selection(listing[1..], present)
  }

  /** A blob is selected exactly when it is listed and not present. */
  lemma {:induction false} SelectionMembers(listing: seq<string>, present: set<string>)
    ensures forall b :: b in Selection(listing, present) <==> b in listing && b !in present
    decreases |listing|
  {
    if listing != [] {
      SelectionMembers(listing[1..], present);
      assert forall b :: b in listing <==> b == listing[0] || b in listing[1..];
    }
  }

  /** The selection keeps listing order: it distributes over concatenation. */
  lemma {:induction false} SelectionConcat(a: seq<string>, b: seq<string>, present: set<string>)
    ensures Selection(a + b, present) == Selection(a, present) + Selection(b, present)
    decreases |a|
  {
    if a == [] {
      assert a + b == b;
    } else {
      assert (a + b)[0] == a[0];
      assert (a + b)[1..] == a[1..] + b;
      SelectionConcat(a[1..], b, present);
    }
  }

  /** With nothing of the listing present, the whole listing is selected. */
  lemma {:induction false} SelectionNothingPresent(listing: seq<string>, present: set<string>)
    requires forall b :: b in listing ==> b !in present
    ensures Selection(listing, present) == listing
    decreases |listing|
  {
    if listing != [] {
      assert listing[0] in listing;
      assert forall b :: b in listing[1..] ==> b in listing;
      SelectionNothingPresent(listing[1..], present);
      assert listing == [listing[0]] + listing[1..];
    }
  }

  /** Only which listed names are present matters. */
  lemma {:induction false} SelectionAgrees(listing: seq<string>, p: set<string>, q: set<string>)
    requires forall b :: b in listing ==> (b in p <==> b in q)
    ensures Selection(listing, p) == Selection(listing, q)
    decreases |listing|
  {
    if listing != [] {
      assert listing[0] in listing;
      assert forall b :: b in listing[1..] ==> b in listing;
      SelectionAgrees(listing[1..], p, q);
    }
  }

  // ---------------------------------------------------------------------------------
  // The write loop
  // ---------------------------------------------------------------------------------

  /** `get_blob_client(blob).download_blob().readall().decode("utf-8")`. */
  function Download(c: Container, name: string): Outcome<string> {
    if name !in c.blobs then Raise(ResourceNotFoundError)
    else match c.blobs[name]
      case Utf8(text) => Ok(text)
      case NotUtf8 => Raise(UnicodeDecodeError)
  }

  /**
   * For each name, `open(<dir>/<name>, "w")` creates or truncates the file, then the blob is
   * downloaded, decoded and written. The first exception ends the loop and leaves the file it
   * opened empty.
   */
  function WriteBlobs(d: Disk<string>, dir: Path, c: Container, names: seq<string>): (Disk<string>, Option<Exc>)
    decreases |names|
  {
    if names == [] then (d, None)
    else
      var p := Child(dir, names[0]);
      match WriteFile(d, p, "")
      case Raise(e) => (d, Some(e))
      case Ok(d1) =>
        match Download(c, names[0])
        case Raise(e) => (d1, Some(e))
        case Ok(text) => WriteBlobs(d1.(files := d1.files[p := text]), dir, c, names[1..])
  }

  /** Writing blobs never creates or removes a directory. */
  lemma {:induction false} WriteBlobsDirs(d: Disk<string>, dir: Path, c: Container, names: seq<string>)
    ensures WriteBlobs(d, dir, c, names).0.dirs == d.dirs
    decreases |names|
  {
    if names != [] {
      var p := Child(dir, names[0]);
      if WriteFile(d, p, "").Ok? && Download(c, names[0]).Ok? {
        var d1 := WriteFile(d, p, "").value;
        WriteBlobsDirs(d1.(files := d1.files[p := Download(c, names[0]).value]), dir, c, names[1..]);
      }
    }
  }

  /** The loop over `a + b` is the loop over `a`, then, if nothing was raised, the loop over `b`. */
  lemma {:induction false} WriteBlobsConcat(d: Disk<string>, dir: Path, c: Container, a: seq<string>, b: seq<string>)
    ensures WriteBlobs(d, dir, c, a + b) ==
      var r := WriteBlobs(d, dir, c, a);
      if r.1.Some? then r else WriteBlobs(r.0, dir, c, b)
    decreases |a|
  {
    if a == [] {
      assert a + b == b;
    } else {
      assert (a + b)[0] == a[0];
      assert (a + b)[1..] == a[1..] + b;
      var p := Child(dir, a[0]);
      if WriteFile(d, p, "").Ok? && Download(c, a[0]).Ok? {
        var d1 := WriteFile(d, p, "").value;
        WriteBlobsConcat(d1.(files := d1.files[p := Download(c, a[0]).value]), dir, c, a[1..], b);
      }
    }
  }

  /**
   * When the loop finishes, every name's file holds its decoded blob, the only new files are
   * those of the names, and every other file is unchanged.
   */
  lemma {:induction false} WriteBlobsStores(d: Disk<string>, dir: Path, c: Container, names: seq<string>)
    requires WriteBlobs(d, dir, c, names).1 == None
    ensures var d2 := WriteBlobs(d, dir, c, names).0;
      && (forall b :: b in names ==>
            Download(c, b).Ok? && Child(dir, b) in d2.files && d2.files[Child(dir, b)] == Download(c, b).value)
      && (forall q :: q in d2.files <==> q in d.files || exists b :: b in names && q == Child(dir, b))
      && (forall q :: q in d.files && (forall b :: b in names ==> q != Child(dir, b)) ==> d2.files[q] == d.files[q])
    decreases |names|
  {
    if names != [] {
      var p := Child(dir, names[0]);
      WriteBlobsHead(d, dir, c, names);
      assert WriteFile(d, p, "").Ok? && Download(c, names[0]).Ok?;
      var d1 := WriteFile(d, p, "").value;
      var text := Download(c, names[0]).value;
      var d1' := d1.(files := d1.files[p := text]);
      var rest := names[1..];
      WriteBlobsStores(d1', dir, c, rest);
      var d2 := WriteBlobs(d1', dir, c, rest).0;
      assert forall b :: b in names <==> b == names[0] || b in rest;
      if names[0] !in rest {
        forall b | b in rest ensures p != Child(dir, b) {
          ChildInjective(dir, names[0], b);
        }
      }
    }
  }

  /**
   * In an existing folder the loop finishes exactly when every name is non-empty, no
   * subfolder has its name, and its blob exists and is valid UTF-8.
   */
  lemma {:induction false} WriteBlobsSucceeds(d: Disk<string>, dir: Path, c: Container, names: seq<string>)
    requires IsDir(d, dir) && dir !in d.files
    ensures WriteBlobs(d, dir, c, names).1 == None <==>
      forall b :: b in names ==> b != "" && Join(dir, b) !in d.dirs && Download(c, b).Ok?
    decreases |names|
  {
    if names != [] {
      var b0 := names[0];
      WriteBlobsHead(d, dir, c, names);
      assert forall b :: b in names <==> b == b0 || b in names[1..];
      if b0 != "" && Join(dir, b0) !in d.dirs {
        var p := Join(dir, b0);
        assert WriteFile(d, p, "").Ok?;
        if Download(c, b0).Ok? {
          var d1 := WriteFile(d, p, "").value;
          var d1' := d1.(files := d1.files[p := Download(c, b0).value]);
          assert |p.parts| != |dir.parts|;
          assert d1'.dirs == d.dirs && IsDir(d1', dir) && dir !in d1'.files;
          WriteBlobsSucceeds(d1', dir, c, names[1..]);
          assert WriteBlobs(d, dir, c, names) == WriteBlobs(d1', dir, c, names[1..]);
        } else {
          assert WriteBlobs(d, dir, c, names).1.Some?;
          assert b0 in names && !Download(c, b0).Ok?;
        }
      } else {
        assert WriteFile(d, Child(dir, b0), "").Raise?;
        assert WriteBlobs(d, dir, c, names).1.Some?;
        assert b0 in names && !(b0 != "" && Join(dir, b0) !in d.dirs);
      }
    }
  }

  // ---------------------------------------------------------------------------------
  // Listing the folder, selecting and writing
  // ---------------------------------------------------------------------------------

  /**
   * What each downloader does once it has the container: list `dir`, count its names
   * containing ".json" as present, and write every listed blob that is not present.
   */
  function Fetch(d: Disk<string>, dir: Path, c: Container): (Disk<string>, Option<Exc>) {
    match ListDir(d, dir)
    case Raise(e) => (d, Some(e))
    case Ok(local) => WriteBlobs(d, dir, c, Selection(c.listing, Present(local)))
  }

  /** Fetching never creates or removes a directory. */
  lemma FetchDirs(d: Disk<string>, dir: Path, c: Container)
    ensures Fetch(d, dir, c).0.dirs == d.dirs
  {
    if ListDir(d, dir).Ok? {
      WriteBlobsDirs(d, dir, c, Selection(c.listing, Present(ListDir(d, dir).value)));
    }
  }

  /** A name is listed in `dir` when a file or folder of that name is directly inside it. */
  lemma NameListed(d: Disk<string>, dir: Path, b: string)
    requires b != "" && (Join(dir, b) in d.files || Join(dir, b) in d.dirs)
    ensures b in Children(d, dir)
  {
    var q := Join(dir, b);
    assert q in d.dirs + d.files.Keys && q.parts != [] && Parent(q) == dir && Name(q) == b;
  }

  /**
   * After a finished fetch: every listed blob that was not present is in the folder with its
   * decoded contents (a local file without ".json" in its name is overwritten); every present
   * ".json" file is untouched; the only new files are listed blobs.
   */
  lemma FetchFiles(d: Disk<string>, dir: Path, c: Container)
    requires ListDir(d, dir).Ok? && Fetch(d, dir, c).1 == None
    ensures var local := ListDir(d, dir).value;
      var d2 := Fetch(d, dir, c).0;
      && d2.dirs == d.dirs
      && (forall b :: b in c.listing && !(b in local && Contains(b, ".json")) ==>
            b != "" && Join(dir, b) in d2.files && b in c.blobs && c.blobs[b] == Utf8(d2.files[Join(dir, b)]))
      && (forall b :: Join(dir, b) in d.files && Contains(b, ".json") ==>
            Join(dir, b) in d2.files && d2.files[Join(dir, b)] == d.files[Join(dir, b)])
      && (forall q :: q in d2.files && q !in d.files ==> exists b :: b in c.listing && q == Join(dir, b))
  {
    var local := ListDir(d, dir).value;
    var sel := Selection(c.listing, Present(local));
    var d2 := Fetch(d, dir, c).0;
    SelectionMembers(c.listing, Present(local));
    WriteBlobsDirs(d, dir, c, sel);
    WriteBlobsStores(d, dir, c, sel);
    WriteBlobsSucceeds(d, dir, c, sel);
    forall b | Join(dir, b) in d.files && Contains(b, ".json")
      ensures Join(dir, b) in d2.files && d2.files[Join(dir, b)] == d.files[Join(dir, b)]
    {
      JsonNameNotEmpty(b);
      NameListed(d, dir, b);
      forall b' | b' in sel ensures Join(dir, b) != Child(dir, b') {
        ChildInjective(dir, b, b');
      }
    }
  }

  /**
   * After a finished fetch, fetching again from the unchanged listing selects exactly the
   * listed names without ".json": none of them contains ".json".
   */
  lemma RerunSelectsNoJson(d: Disk<string>, dir: Path, c: Container)
    requires ListDir(d, dir).Ok? && Fetch(d, dir, c).1 == None
    ensures var d2 := Fetch(d, dir, c).0;
      && ListDir(d2, dir).Ok?
      && Selection(c.listing, Present(ListDir(d2, dir).value))
         == Selection(c.listing, JsonNames(c.listing))
      && forall b :: b in Selection(c.listing, Present(ListDir(d2, dir).value)) ==> !Contains(b, ".json")
  {
    var local := ListDir(d, dir).value;
    var sel := Selection(c.listing, Present(local));
    var d2 := Fetch(d, dir, c).0;
    SelectionMembers(c.listing, Present(local));
    WriteBlobsDirs(d, dir, c, sel);
    WriteBlobsStores(d, dir, c, sel);
    WriteBlobsSucceeds(d, dir, c, sel);
    assert dir !in d2.files;
    var local2 := ListDir(d2, dir).value;
    var json := JsonNames(c.listing);
    forall b | b in c.listing ensures b in Present(local2) <==> b in json {
      if Contains(b, ".json") {
        JsonNameNotEmpty(b);
        if b in local {
          var q :| q in d.dirs + d.files.Keys && q.parts != [] && Parent(q) == dir && Name(q) == b;
          assert q in d2.dirs + d2.files.Keys;
        } else {
          NameListed(d2, dir, b);
        }
      }
    }
    SelectionAgrees(c.listing, Present(local2), json);
    SelectionMembers(c.listing, Present(local2));
  }

  /** One step of `WriteBlobs`: the first blob is opened, downloaded and written, or raises. */
  lemma WriteBlobsHead(d: Disk<string>, dir: Path, c: Container, names: seq<string>)
    requires names != []
    ensures var p := Child(dir, names[0]);
      var file := WriteFile(d, p, "");
      && (file.Raise? ==> WriteBlobs(d, dir, c, names) == (d, Some(file.exc)))
      && (file.Ok? && Download(c, names[0]).Raise? ==> WriteBlobs(d, dir, c, names) == (file.value, Some(Download(c, names[0]).exc)))
      && (file.Ok? && Download(c, names[0]).Ok? ==>
            WriteBlobs(d, dir, c, names) == WriteBlobs(file.value.(files := file.value.files[p := Download(c, names[0]).value]), dir, c, names[1..]))
  {
  }

  /**
   * The write loop over the selected blobs. `written` counts the blobs written before
   * an exception or the end.
   */
  method WriteLoop(d: Disk<string>, dir: Path, c: Container, blobs: seq<string>)
    returns (d': Disk<string>, exc: Option<Exc>, written: nat)
    ensures (d', exc) == WriteBlobs(d, dir, c, blobs)
    ensures written <= |blobs| && (exc.None? <==> written == |blobs|)
  {
    d' := d;
    var i := 0;
    while i < |blobs|
      invariant i <= |blobs|
      invariant WriteBlobs(d, dir, c, blobs) == WriteBlobs(d', dir, c, blobs[i..])
      decreases |blobs| - i
    {
      assert blobs[i..][0] == blobs[i] && blobs[i..][1..] == blobs[i + 1..];
      WriteBlobsHead(d', dir, c, blobs[i..]);
      var p := Child(dir, blobs[i]);
      var file := WriteFile(d', p, "");
      if file.Raise? {
        return d', Some(file.exc), i;
      }
      var data := Download(c, blobs[i]);
      if data.Raise? {
        return file.value, Some(data.exc), i;
      }
      d' := file.value.(files := file.value.files[p := data.value]);
      i := i + 1;
    }
    return d', None, i;
  }

  /**
   * The listing, selection and write loop. The bar is created once the folder is listed,
   * with one step per blob written.
   */
  method DownloadNew(d: Disk<string>, dir: Path, c: Container) returns (d': Disk<string>, exc: Option<Exc>, bar: Option<Bar>)
    ensures (d', exc) == Fetch(d, dir, c)
    ensures bar.Some? <==> ListDir(d, dir).Ok?
    ensures bar.Some? ==> && bar.value.max == |Selection(c.listing, Present(ListDir(d, dir).value))|
                          && bar.value.count <= bar.value.max
                          && (exc.None? <==> bar.value.count == bar.value.max)
  {
    var listed := ListDir(d, dir);
    if listed.Raise? {
      return d, Some(listed.exc), None;
    }
    var blobs := Selection(c.listing, Present(listed.value));
    var written;
    d', exc, written := WriteLoop(d, dir, c, blobs);
    bar := Some(Bar(|blobs|, written));
  }

  // ---------------------------------------------------------------------------------
  // One container, into its own folder
  // ---------------------------------------------------------------------------------

  /**
   * One container into `<raw>/<name>`: the folder is created with its parents, then the
   * container at `<url>/<name>` is listed and fetched into it. A name or URL that is not a
   * string raises TypeError where the source first combines it with a string.
   */
  function DownloadContainer(d: Disk<string>, raw: Path, url: Value, name: Value, service: Service)
    : (Disk<string>, Option<Exc>)
  {
    if !name.Str? then (d, Some(TypeError))
    else
      var dataPath := Child(raw, name.s);
      match MkdirParents(d, dataPath)
      case Raise(e) => (d, Some(e))
      case Ok(d1) =>
        if !url.Str? then (d1, Some(TypeError))
        else if url.s + "/" + name.s !in service then (d1, Some(ResourceNotFoundError))
        else Fetch(d1, dataPath, service[url.s + "/" + name.s])
  }

  /**
   * Once the folder can be made, it is there afterwards, with its parents, whatever happens
   * next; no other folder is made.
   */
  lemma ContainerFolder(d: Disk<string>, raw: Path, url: Value, name: Value, service: Service)
    requires name.Str? && MkdirParents(d, Child(raw, name.s)).Ok?
    ensures var d2 := DownloadContainer(d, raw, url, name, service).0;
      && d2.dirs == d.dirs + Lineage(Child(raw, name.s))
      && IsDir(d2, Child(raw, name.s))
  {
    var d1 := MkdirParents(d, Child(raw, name.s)).value;
    if url.Str? && url.s + "/" + name.s in service {
      FetchDirs(d1, Child(raw, name.s), service[url.s + "/" + name.s]);
    }
  }

  /** A container step never removes a folder. */
  lemma ContainerDirsGrow(d: Disk<string>, raw: Path, url: Value, name: Value, service: Service)
    ensures d.dirs <= DownloadContainer(d, raw, url, name, service).0.dirs
  {
    if name.Str? && MkdirParents(d, Child(raw, name.s)).Ok? {
      ContainerFolder(d, raw, url, name, service);
    }
  }

  /** Every folder on the way to `p` is a prefix of `p`, no longer than `p`. */
  lemma LineageShorter(p: Path, q: Path)
    requires q in Lineage(p)
    ensures 1 <= |q.parts| <= |p.parts|
  {
  }

  /**
   * After a finished run for one container, a second run against the unchanged service finds
   * the folder in place (creating it changes nothing), and selects no blob whose name
   * contains ".json".
   */
  lemma ContainerRerun(d: Disk<string>, raw: Path, url: Value, name: Value, service: Service)
    requires DownloadContainer(d, raw, url, name, service).1 == None
    ensures name.Str? && url.Str? && url.s + "/" + name.s in service
    ensures var d2 := DownloadContainer(d, raw, url, name, service).0;
      var dataPath := Child(raw, name.s);
      var c := service[url.s + "/" + name.s];
      && MkdirParents(d2, dataPath) == Ok(d2)
      && ListDir(d2, dataPath).Ok?
      && forall b :: b in Selection(c.listing, Present(ListDir(d2, dataPath).value)) ==> !Contains(b, ".json")
  {
    var dataPath := Child(raw, name.s);
    var d1 := MkdirParents(d, dataPath).value;
    var c := service[url.s + "/" + name.s];
    var d2 := Fetch(d1, dataPath, c).0;
    RerunSelectsNoJson(d1, dataPath, c);
    FetchFiles(d1, dataPath, c);
    forall q | q in d2.files && q !in d1.files ensures |q.parts| > |dataPath.parts| {
      var b :| b in c.listing && q == Join(dataPath, b);
    }
    forall q | q in Lineage(dataPath) ensures q !in d2.files {
      LineageShorter(dataPath, q);
    }
    assert d2.dirs + Lineage(dataPath) == d2.dirs;
  }
}
