# data-driven-fpl, modelled in Dafny

This project models the data path of data-driven-fpl, a repository that gathers Fantasy
Premier League snapshots and turns them into training data. The modelled stages are:

- **Download.** Snapshots are downloaded from Azure blob containers into `data/raw`. There are
  three downloaders:
  - the newer `BlobImporter`, one folder per configured container;
  - `download_all`, one container;
  - the older `BlobImporter`, one container written straight into the raw folder.
  
  All three share one rule: a listed blob is fetched unless a local name containing ".json"
  already matches it.
- **JSON to CSV.** Two converters, `DataConverter` in `data_converter.py` and in
  `data_converter_class.py`, turn the JSON snapshots into one CSV per entity
  ("elements" or "teams"). The third, `convert_data.json_to_csv`, writes no CSV: it only lists
  the data folder, builds the CSV path and makes `data/interim`. Each record is annotated with the snapshot's download time, its
  gameweek (the id of the first event whose `is_current` is literally `true`, otherwise 0) and,
  in the newer converter, the index of its snapshot folder as the season. A file that raises
  `TypeError` or `JSONDecodeError` is skipped. The output is truncated and given a header only
  at the very first file.
- **CSV to parquet.** `to_parquet` reads the CSV in chunks and writes each chunk as a
  hive-partitioned parquet dataset, with files named `chunk_<y>_0` and
  `existing_data_behavior="overwrite_or_ignore"`.
- **Table transforms.**
  - `calculate_diff` turns a cumulative column into per-gameweek values.
  - `join_elements_and_team` collapses both tables to one row per `(code, gameweek)`, keeping
    each column's last non-null value, then left-joins the teams on
    `(team_code, gameweek)`.
- **Training samples.** A generator yields them per player:
  - players are taken in order of first appearance;
  - each player's rows are sorted by season and gameweek;
  - the rows are cut into windows of 10;
  - inputs and labels have their nulls filled and are zero-padded in front to `seq_len` rows.

The disk is a value: a set of directories and a map from file paths to contents. The blob
service is a map from container URL to a listing and blob bytes. The classes whose methods
update state (the converters and importers) are Dafny classes holding that disk. Pure
computations are functions with lemmas about them.

Modules, by source file:

| module | source |
|---|---|
| `Paths` | `fpl/utils/paths.py` |
| `Snapshot` | logic shared by the converters |
| `Converter` | `fpl/data/data_converter.py` |
| `ConverterClass` | `fpl/data/data_converter_class.py` |
| `ConvertData` | `fpl/data/convert_data.py` |
| `Frames` | pandas `groupby(...).last()` |
| `Transformations` | `fpl/transform/transformations.py` |
| `MakeParquet` | `fpl/data/make_parquet.py` |
| `Blobs` | logic shared by the downloaders |
| `BlobImporter` | `fpl/data/blob_importer.py` |
| `GetData` | `fpl/data/get_data.py` |
| `LegacyBlobImporter` | `fpl/data_import/blob_importer.py` |
| `DataPipeline` | `fpl/pipeline/data_pipeline.py` |

`Exceptions`, `Json`, `Text`, `Sorting` and `Disk` are support modules.

## Model

| member | source | states |
|---|---|---|
| Paths.RootPath | fpl/utils/paths.py:6-14 | The root is absolute and is the third parent of the paths module's absolute path. |
| Paths.RootHoldsPackage | fpl/utils/paths.py:6-14 | For the module at `<root>/fpl/utils/paths.py`, the root is the directory holding the `fpl` package. |
| Paths.DataPath | fpl/utils/paths.py:17-24 | The data path is the child `data` of the root. |
| Paths.RawDataPath | fpl/utils/paths.py:27-34 | The raw data path is the child `raw` of the data path, that is `<root>/data/raw`. |
| Paths.ConfigFilePath | fpl/utils/paths.py:37-44 | The config file is `config.yaml` in the directory `config` of the root. |
| Paths.JsonSuffix | fpl/data/data_converter.py:70 | A name's suffix is ".json" exactly when the name ends in ".json" after at least one other character. |
| Paths.WithSuffixNoDot | fpl/data/data_converter.py:29-31 | `with_suffix` appends the suffix to a name without a dot. |
| Paths.WithSuffixAtLastDot | fpl/data/data_converter.py:29-31 | When the last dot is inside the name, `with_suffix` replaces everything from that dot on. |
| Paths.WithSuffixCutsAtDot | fpl/data/data_converter.py:29-31 | A dot in the raw folder's name cuts the entity from the CSV name: `stem.rest` gives `stem.csv`. |
| Snapshot.GameWeekIsFirstCurrentId | fpl/data/data_converter.py:37-47 | With well-formed events, the gameweek is the id of the first event whose `is_current` is true. |
| Snapshot.GameWeekZeroWithoutCurrent | fpl/data/data_converter.py:45-47 | Without a current event (or with no events) the gameweek is 0. |
| Snapshot.GameWeekOnlyLiteralTrue | fpl/data/data_converter.py:45 | `is True` is an identity test: an `is_current` of 1 is not current, and `true` is. |
| Snapshot.GameWeekRaisesOnMalformedEvent | fpl/data/data_converter.py:45 | Every event is filtered. The first malformed one raises TypeError (not an object) or KeyError (no `is_current`), even after a current event. |
| Snapshot.Annotate | fpl/data/data_converter.py:78-89 | Annotation succeeds exactly when every record is an object. Each record keeps its other keys and gets `download_time`, `gameweek` and the season when one is given. A missing `download_time` raises KeyError only when there is a record. |
| Snapshot.EntityRows | fpl/data/data_converter.py:75-90 | The rows of `data[entity]`, one per record. A non-object snapshot raises TypeError. A missing entity raises KeyError. |
| Snapshot.JsonFilesSortedSelection | fpl/data/data_converter.py:70 | The files read are exactly the entries with suffix ".json", sorted by name. |
| Snapshot.RunJobsAppends | fpl/data/data_converter.py:91-96 | Away from iteration (0, 0) and with nothing uncaught, the run appends the readable files' rows. The file is untouched when no file is readable. |
| Snapshot.RunJobsAccumulates | fpl/data/data_converter.py:91-96 | With nothing uncaught, the CSV is the header and all readable files' rows when the first file is readable. Otherwise it is the old CSV (or none) followed by those rows. |
| Snapshot.RunJobsStopsAtCrash | fpl/data/data_converter.py:74-101 | The first exception other than TypeError or JSONDecodeError ends the run, keeping what was written before it. |
| Snapshot.WrittenCountsRecords | fpl/data/data_converter.py:78-96 | The rows written number the records of the files that succeed. |
| Snapshot.JobsInOrder | fpl/data/data_converter.py:67-73 | Files are visited in (folder, file) order. |
| Snapshot.JobsFailureLast | fpl/data/data_converter.py:67-73 | A folder that cannot be listed ends the loops: its failure is the last iteration. |
| Snapshot.OnlyFirstJobAtOrigin | fpl/data/data_converter.py:93-95 | Only the first iteration is at (0, 0), the one that writes with mode "w" and a header. |
| Converter.DataFolders | fpl/data/data_converter.py:58-60 | The folders are exactly the entries whose name contains "fpl-data". |
| Converter.FindJsonSelectsDataFolders | fpl/data/data_converter.py:49-60 | `_find_json` gives those folders sorted by name, or the raw directory alone when there are none. |
| Converter.EntityPath | fpl/data/data_converter.py:29-31 | The CSV lies in the interim folder and is named `<raw name>_<entity>` with its suffix set to ".csv". |
| Converter.EntityPathPlainName | fpl/data/data_converter.py:29-31 | For dot-free names the CSV is `<raw name>_<entity>.csv`. |
| Converter.ConvertAccumulates | fpl/data/data_converter.py:62-101 | A whole conversion with nothing uncaught leaves the header and every readable file's annotated rows in (folder, file) order when the first file is readable. Otherwise it leaves the old CSV followed by those rows. |
| Converter.ConvertRowsAreSeasoned | fpl/data/data_converter.py:78-89 | Every row written is a record of the entity annotated with its folder's index as `season`. |
| Converter.DataConverter.constructor | fpl/data/data_converter.py:14-31 | The converter keeps its entity and paths, and its CSV path is the entity path. |
| Converter.DataConverter.MakeInterimFolderIfAbsent | fpl/data/data_converter.py:33-35 | The CSV's folder is created with `exist_ok`, or the mkdir error is returned with the disk unchanged. |
| Converter.DataConverter.WriteRows | fpl/data/data_converter.py:91-96 | Writing stores the CSV truncated with a header (mode "w") or appended to (mode "a"). |
| Converter.DataConverter.ConvertFolder | fpl/data/data_converter.py:68-101 | The inner loop over one folder's files does what the specification of the loops says for those iterations. |
| Converter.DataConverter.ConvertFolders | fpl/data/data_converter.py:67-101 | The outer loop gives the disk and exception of the specification function `RunFolders`. |
| Converter.DataConverter.ConvertJsonToCsvOnEntity | fpl/data/data_converter.py:62-101 | The whole method gives the disk and exception of `Convert`: listing, then mkdir, then the loops. |
| ConverterClass.InterimFolder | fpl/data/data_converter_class.py:22 | The interim folder is relative and has at most two components. |
| ConverterClass.DefaultEntityPath | fpl/data/data_converter_class.py:11-25 | With default arguments the CSV is `data/interim/<data_dir name>_<entity>.csv`. |
| ConverterClass.FlatOriginFirst | fpl/data/data_converter_class.py:72-74 | In one folder only the first file truncates and writes the header. |
| ConverterClass.ConvertFlatAccumulates | fpl/data/data_converter_class.py:44-80 | With nothing uncaught, the CSV is the header and every readable file's rows when the first file is readable. Otherwise it is the old CSV followed by those rows. |
| ConverterClass.FlatRowsHaveNoSeason | fpl/data/data_converter_class.py:61-68 | The older converter adds no `season`: a row has one exactly when its record did. |
| ConverterClass.DataConverter.constructor | fpl/data/data_converter_class.py:11-25 | The CSV path is `<main_data_folder>/<main_interim_folder>/<data_dir name>_<entity>` with suffix ".csv". |
| ConverterClass.DataConverter.MakeInterimFolderIfAbsent | fpl/data/data_converter_class.py:27-30 | The CSV's folder is created with `exist_ok`, or the error is returned with the disk unchanged. |
| ConverterClass.DataConverter.WriteRows | fpl/data/data_converter_class.py:69-75 | Stores the CSV truncated with a header, or appended to. |
| ConverterClass.DataConverter.ConvertFiles | fpl/data/data_converter_class.py:56-80 | The loop gives the disk and exception of the specification function `RunFiles`. |
| ConverterClass.DataConverter.ConvertJsonToCsvOnEntity | fpl/data/data_converter_class.py:44-80 | The whole method gives the disk and exception of `ConvertFlat`. |
| ConvertData.InterimPath | fpl/data/convert_data.py:32-33 | The CSV path lies in `data/interim` and is named `<data_dir name>_<entity>` with suffix ".csv". |
| ConvertData.JsonToCsv | fpl/data/convert_data.py:19-34 | It succeeds exactly when `data_dir` is a directory and `data/interim` can be made. It then leaves `data/interim` in place and writes no file. |
| ConvertData.JsonToCsvNeedsDataFolder | fpl/data/convert_data.py:34 | Without a `data` directory, creating `data/interim` (no parents) raises. |
| Frames.GroupByLast | fpl/transform/transformations.py:28-29 | The collapse raises KeyError exactly when `code` or `gameweek` is missing. Otherwise it keeps every column, the key columns first. |
| Frames.LastValue | fpl/transform/transformations.py:28-29 | The value kept is the group's last non-null cell in that column, or null when there is none. |
| Frames.GroupByLastKeys | fpl/transform/transformations.py:28-29 | One output row per distinct non-null key of the input, no more and no fewer, in strictly ascending key order. |
| Frames.GroupByLastCells | fpl/transform/transformations.py:28-29 | Each non-key cell is its group's last non-null value in the column of that name. |
| Frames.GroupByLastColumns | fpl/transform/transformations.py:28-29 | A column name is in the output exactly when it is in the input. |
| Frames.GroupByLastIntKeys | fpl/transform/transformations.py:28-29 | Integer key columns stay integer after the collapse. |
| Frames.GroupByLastOfKeyed | fpl/transform/transformations.py:28-29 | A table already keyed by (code, gameweek) in ascending order is its own collapse. |
| Frames.GroupByLastIdempotent | fpl/transform/transformations.py:28-29 | Collapsing twice is collapsing once. |
| Transformations.CalculateDiff | fpl/transform/transformations.py:13-15 | The result has the input's length and nulls. Positions 0 and 1 pass through. |
| Transformations.RunningTotal | fpl/transform/transformations.py:14 | Summing the diff from position 1 up to i gives the value at i. |
| Transformations.DiffThenCumulate | fpl/transform/transformations.py:4-15 | Cumulating the diff gives the original column back. |
| Transformations.CumulateThenDiff | fpl/transform/transformations.py:4-15 | The diff of running totals is the original column. |
| Transformations.TeamCells | fpl/transform/transformations.py:30-32 | The team cells joined to an element row are the non-key cells of the team row keyed by its (team_code, gameweek), or nulls. |
| Transformations.TeamColumns | fpl/transform/transformations.py:31 | Team column names that clash with element columns get `_team`. |
| Transformations.JoinElementsAndTeam | fpl/transform/transformations.py:18-32 | The join of two rectangular tables is rectangular. |
| Transformations.JoinErrors | fpl/transform/transformations.py:28-32 | The join raises KeyError exactly when `code` or `gameweek` is missing from either table, or `team_code` from the elements. |
| Transformations.JoinRows | fpl/transform/transformations.py:28-32 | The join has one row per distinct (code, gameweek) of the elements, in ascending order. |
| Transformations.JoinColumns | fpl/transform/transformations.py:30-32 | The columns are the collapsed element columns, then the team's non-key columns renamed with `_team` where they clash. |
| Transformations.JoinRow | fpl/transform/transformations.py:30-32 | Row i is collapsed element row i followed by the matching collapsed team row's non-key cells, or by nulls (a left join). |
| MakeParquet.NChunksStep | fpl/data/make_parquet.py:19-21 | n lines in chunks of c are one chunk more than n - c lines. |
| MakeParquet.NChunksSmall | fpl/data/make_parquet.py:19-21 | At most c lines make one chunk. |
| MakeParquet.ProgressTotal | fpl/data/make_parquet.py:18-23 | The progress total also counts the header line: it exceeds the chunk count by one exactly when the data rows fill their last chunk. |
| MakeParquet.Chunks | fpl/data/make_parquet.py:23 | `read_csv` yields at least one chunk. Every chunk holds at most `chunk_size` rows, and at least one when there are data rows. |
| MakeParquet.ChunksCover | fpl/data/make_parquet.py:23 | The chunks, concatenated in order, are the data rows. |
| MakeParquet.ChunksCount | fpl/data/make_parquet.py:19-23 | There are `NChunks(N, chunk_size)` chunks for N > 0 data rows, and one empty chunk for none. |
| MakeParquet.ChunkRange | fpl/data/make_parquet.py:23 | Chunk y holds the data rows from y*c up to (y+1)*c or the end. |
| MakeParquet.ChunkOfRow | fpl/data/make_parquet.py:23 | Data row n is row n % c of chunk n / c. |
| MakeParquet.ChunkNameInjective | fpl/data/make_parquet.py:28 | Different chunks get different basenames. |
| MakeParquet.ColumnPositions | fpl/data/make_parquet.py:30 | The partition columns are found, in order, exactly when all of them are columns. |
| MakeParquet.KeptColumnsSpec | fpl/data/make_parquet.py:30-32 | A file stores every column that is not a partition column, each once, in table order. |
| MakeParquet.ChunkFilesSelect | fpl/data/make_parquet.py:25-33 | A chunk writes a file in a partition directory exactly when some of its rows go there. The file then holds exactly those rows, in order, without the partition cells. |
| MakeParquet.ChunkFilesHoldRows | fpl/data/make_parquet.py:25-33 | Each row of a chunk is in its partition's file. |
| MakeParquet.ChunkFilesNames | fpl/data/make_parquet.py:28-32 | Each file of chunk y is `chunk_<y>_0`, one directory per partition column deep. |
| MakeParquet.ChunkMapsDisjoint | fpl/data/make_parquet.py:28 | Different chunks write different files. |
| MakeParquet.WriteChunksIsUnion | fpl/data/make_parquet.py:23-33 | Writing chunk after chunk is writing the union of their files over the old dataset. |
| MakeParquet.WriteAll | fpl/data/make_parquet.py:23-33 | The loop over the chunks leaves the dataset the specification of the loop gives. |
| MakeParquet.ToParquet | fpl/data/make_parquet.py:9-33 | The method gives the dataset or error of `ToParquetSpec`, with progress total `NChunks(lines incl. header, chunk_size)`. A zero chunk size raises ZeroDivisionError and a negative one ValueError. A missing partition column raises whatever the row count, because the first `write_dataset` call always happens. |
| MakeParquet.OverwriteOrIgnore | fpl/data/make_parquet.py:31 | The run's files replace files of the same name, and every other existing file is kept. |
| MakeParquet.RerunChangesNothing | fpl/data/make_parquet.py:31 | Running again with the same input gives the same dataset. |
| MakeParquet.RowStored | fpl/data/make_parquet.py:23-33 | Data row n is in `<its partition dirs>/chunk_<n / chunk_size>_0`, without its partition cells. |
| MakeParquet.RunFileKeys | fpl/data/make_parquet.py:25-33 | The files of a run are exactly `<dirs of row n>/chunk_<n / chunk_size>_0` over the data rows n. |
| MakeParquet.RunFileChunk | fpl/data/make_parquet.py:25-33 | Each file of a run is the file one chunk's `write_dataset` call left there, unchanged by the other chunks. |
| MakeParquet.RunFileContents | fpl/data/make_parquet.py:25-33 | Each file holds exactly its chunk's rows of its partition, in order. |
| MakeParquet.NoPartitionFiles | fpl/data/make_parquet.py:30 | Without partition columns and with data rows, each chunk writes one top-level file `chunk_<y>_0`. |
| MakeParquet.NoPartitionContents | fpl/data/make_parquet.py:30 | Without partition columns, that file holds the whole chunk with every column. |
| MakeParquet.PartDirsCount | fpl/data/make_parquet.py:30-32 | A column has one partition directory per distinct value. |
| MakeParquet.TopLevelDirectories | fpl/data/make_parquet.py:30-32 | The top-level directories are `col=value` for the values of the first partition column. |
| MakeParquet.TopLevelCount | fpl/data/make_parquet.py:30-32 | There are as many top-level directories as the first partition column has distinct values. |
| Blobs.Present | fpl/data/blob_importer.py:45 | The names counted as downloaded are exactly the local names containing ".json". |
| Blobs.SelectionMembers | fpl/data/blob_importer.py:46 | A blob is selected exactly when it is listed and not present. |
| Blobs.SelectionConcat | fpl/data/blob_importer.py:46 | The selection keeps listing order. |
| Blobs.SelectionNothingPresent | fpl/data/blob_importer.py:46 | With nothing present, the whole listing is selected. |
| Blobs.SelectionAgrees | fpl/data/blob_importer.py:45-46 | Only which listed names are present matters. |
| Blobs.WriteBlobsDirs | fpl/data/blob_importer.py:49-53 | Writing blobs creates or removes no directory. |
| Blobs.WriteBlobsConcat | fpl/data/blob_importer.py:49-53 | The write loop over a + b is the loop over a, then, if nothing was raised, over b. |
| Blobs.WriteBlobsStores | fpl/data/blob_importer.py:49-53 | After a finished loop each name's file holds its decoded blob. The only new files are the names', and every other file is unchanged. |
| Blobs.WriteBlobsSucceeds | fpl/data/blob_importer.py:49-53 | In an existing folder the loop finishes exactly when every name is non-empty, no subfolder has its name, and its blob exists and decodes. |
| Blobs.FetchDirs | fpl/data/blob_importer.py:44-53 | Fetching creates or removes no directory. |
| Blobs.FetchFiles | fpl/data/blob_importer.py:44-53 | After a finished fetch every listed blob not present holds its contents, every present ".json" file is untouched, and the only new files are listed blobs. |
| Blobs.RerunSelectsNoJson | fpl/data/blob_importer.py:44-53 | A second fetch against the same listing selects no name containing ".json". |
| Blobs.WriteLoop | fpl/data/blob_importer.py:49-53 | The write loop over the selected blobs gives `WriteBlobs`' disk and exception. It counts the blobs written, and the count is the whole selection exactly when nothing raised. |
| Blobs.DownloadNew | fpl/data/blob_importer.py:44-53 | The listing, selection and writes give `Fetch`'s result. The bar exists once the folder is listed, and its maximum is the selection's size. Its count reaches the maximum exactly when every write finishes. |
| Blobs.ContainerFolder | fpl/data/blob_importer.py:38-39 | Once the folder can be made it exists afterwards, with its parents, and no other folder is made. |
| Blobs.ContainerDirsGrow | fpl/data/blob_importer.py:37-53 | A container step never removes a folder. |
| Blobs.ContainerRerun | fpl/data/blob_importer.py:37-53 | After a finished run, a second run finds the folder in place and selects no ".json" blob. |
| BlobImporter.Configure | fpl/data/blob_importer.py:13-31 | Each given path replaces its default under the root, and the config is what loading the chosen config file yields. |
| BlobImporter.Iterate | fpl/data/blob_importer.py:37 | Iterating a list yields its items and a string its characters. Anything else raises TypeError. |
| BlobImporter.ContainerLoopConcat | fpl/data/blob_importer.py:37 | Containers are processed in config order. |
| BlobImporter.ContainerLoopDirsGrow | fpl/data/blob_importer.py:37-53 | The loop never removes a folder. |
| BlobImporter.ContainerLoopFolders | fpl/data/blob_importer.py:37-39 | After a finished loop every container name was a string and has its folder under the raw path. |
| BlobImporter.ConfigKeysRequired | fpl/data/blob_importer.py:35-36 | A config without the "azure" section or its keys raises KeyError with the disk unchanged. |
| BlobImporter.BlobImporter.constructor | fpl/data/blob_importer.py:13-31 | The attributes are `Configure`'s settings. |
| BlobImporter.BlobImporter.DownloadContainer | fpl/data/blob_importer.py:38-53 | One container pass gives `Blobs.DownloadContainer`'s disk and exception. |
| BlobImporter.BlobImporter.DownloadBlobsInContainers | fpl/data/blob_importer.py:33-54 | The method gives the disk and exception of `DownloadAllContainers`. |
| GetData.DownloadAll | fpl/data/get_data.py:8-36 | `download_all` is the single-container step into `<data_dir_path>/<container_name>`. |
| GetData.DefaultDownloadFolder | fpl/data/get_data.py:8-21 | With the default folder, blobs go to `data/raw/<container_name>`, which exists afterwards. |
| LegacyBlobImporter.Init | fpl/data_import/blob_importer.py:13-28 | The corrected constructor keeps both paths as the newer importer does, and loads the config from the chosen file. |
| LegacyBlobImporter.InitAsWrittenLosesArguments | fpl/data_import/blob_importer.py:24-28 | As written, a config path makes construction raise AttributeError. A raw data path makes the download raise instead of using it. |
| LegacyBlobImporter.InitAsWrittenAgreesWithoutArguments | fpl/data_import/blob_importer.py:24-28 | With no arguments the constructor as written matches the corrected one. |
| LegacyBlobImporter.MissingRawFolder | fpl/data_import/blob_importer.py:36-42 | When the raw folder is not a directory, listing it raises where the path lookup stops: NotADirectoryError at a regular file, FileNotFoundError where nothing is. The disk is unchanged: nothing creates the folder. |
| Disk.WalkErrorAt | fpl/data_import/blob_importer.py:36 | A failed lookup raises according to the first component on the way that is not a directory: NotADirectoryError for a regular file, FileNotFoundError for nothing. |
| Disk.TreeWalkError | fpl/data_import/blob_importer.py:36 | On a well-formed disk, a path that is not a directory fails to look up, with NotADirectoryError exactly when a regular file lies on the way, and FileNotFoundError otherwise. |
| Disk.BelowFileRaises | fpl/data_import/blob_importer.py:36-40 | Below a regular file, `mkdir`, `open(..., "w")` and `iterdir` all raise NotADirectoryError. |
| LegacyBlobImporter.WritesIntoRawFolder | fpl/data_import/blob_importer.py:30-42 | A finished download writes only files directly in the raw folder, one per listed blob of `FPL_2021_CONTAINER`. |
| LegacyBlobImporter.BlobImporter.constructor | fpl/data_import/blob_importer.py:13-28 | The attributes are those of the corrected `Init`. |
| LegacyBlobImporter.BlobImporter.DownloadAllBlobsInContainer | fpl/data_import/blob_importer.py:30-42 | The method gives the disk and exception of `DownloadAllBlobs`. |
| DataPipeline.Chunks | fpl/pipeline/data_pipeline.py:20-23 | As written, `_chunks` yields one window per position. |
| DataPipeline.ChunksEndBefore | fpl/pipeline/data_pipeline.py:20-23 | Every window is a run ending just before its position, and window 0 is empty. |
| DataPipeline.ChunksFull | fpl/pipeline/data_pipeline.py:20-23 | From position n on, window i is exactly the n elements before i. |
| DataPipeline.ChunksEarly | fpl/pipeline/data_pipeline.py:20-23 | Before position n the negative start counts from the end: the window is empty once the list has n elements. |
| DataPipeline.ChunksLoseEarlyWindows | fpl/pipeline/data_pipeline.py:20-23 | With at least n elements, windows 1 to n-1 are empty as written, but hold the first i elements as intended. |
| DataPipeline.ChunksExample | fpl/pipeline/data_pipeline.py:20-23 | Windows of 2 over [1,2,3] are [[],[],[1,2]] as written and [[],[1],[1,2]] as intended. |
| DataPipeline.ChunksClamped | fpl/pipeline/data_pipeline.py:20-23 | The corrected windowing gives one window per position. |
| DataPipeline.ChunksClampedWindows | fpl/pipeline/data_pipeline.py:20-23 | The corrected window i holds the min(i, n) elements right before i, so it is non-empty for i > 0. |
| DataPipeline.ChunksAgreeFromN | fpl/pipeline/data_pipeline.py:20-23 | The two windowings agree from position n on. |
| DataPipeline.WindowsAtMostN | fpl/pipeline/data_pipeline.py:20-23 | No window has more than n elements. |
| DataPipeline.PadToLength | fpl/pipeline/data_pipeline.py:25-27 | Padding raises ValueError exactly when the matrix has more than m rows. Otherwise it puts zero rows in front, up to m rows, and keeps the matrix at the end. |
| DataPipeline.WindowsPad | fpl/pipeline/data_pipeline.py:25-27 | Every window pads to a length of at least n, and a full window does not pad to a shorter length. |
| DataPipeline.UniqueMember | fpl/pipeline/data_pipeline.py:40 | A code is a player exactly when it occurs. |
| DataPipeline.UniqueSpec | fpl/pipeline/data_pipeline.py:40 | The players are the codes, each once, in order of first appearance. |
| DataPipeline.RowOrderTotalPreorder | fpl/pipeline/data_pipeline.py:44-46 | Ordering by season, then gameweek, is a total preorder. |
| DataPipeline.RowsOfSpec | fpl/pipeline/data_pipeline.py:44 | A player's rows are the rows with that code, with their multiplicities. |
| DataPipeline.PlayerRowsSorted | fpl/pipeline/data_pipeline.py:44-46 | A player's rows are sorted by season and gameweek, and are a permutation of that player's rows. |
| DataPipeline.FeatureColumnsSpec | fpl/pipeline/data_pipeline.py:48-54 | The features are, in table order, exactly the columns other than `web_name`, `team_code`, `code`, `gameweek`, `season`, `total_points` and `target`. |
| DataPipeline.Features | fpl/pipeline/data_pipeline.py:49-54 | The inputs have one row per window row and one cell per feature. |
| DataPipeline.Labels | fpl/pipeline/data_pipeline.py:55 | The labels have one row per window row and one cell. |
| DataPipeline.WindowSamplesAt | fpl/pipeline/data_pipeline.py:48-56 | A normal run yields one sample per window: window k's features and labels, each padded to `seq_len`. |
| DataPipeline.NoNullsInSamples | fpl/pipeline/data_pipeline.py:49-56 | Every sample has `seq_len` rows and no nulls. |
| DataPipeline.EarlySamplesArePadding | fpl/pipeline/data_pipeline.py:48-56 | As written, a player with at least 10 rows gets first 10 samples whose inputs are all zeros. |
| DataPipeline.PadLastRow | fpl/pipeline/data_pipeline.py:27 | The last row of a padded non-empty matrix is its own last row. |
| DataPipeline.PaddedFeaturesEnd | fpl/pipeline/data_pipeline.py:49-56 | The padded features of a non-empty window end with its last row's filled features. |
| DataPipeline.ClampedSamplesEndWithPreviousRow | fpl/pipeline/data_pipeline.py:48-56 | With the corrected windows, every sample after a player's first ends with the previous row's features. |
| DataPipeline.IngestCount | fpl/pipeline/data_pipeline.py:40-56 | A normal run needs a `code` column and yields exactly one sample per row of the table. |
| DataPipeline.IngestPlayersCount | fpl/pipeline/data_pipeline.py:43-56 | A normal run over the players yields, per player, one sample per row with that player's code. |
| DataPipeline.PlayersRowCountAll | fpl/pipeline/data_pipeline.py:40-43 | Counting each distinct player's rows, over a list holding every code, counts every row once. |
| DataPipeline.IngestFirstPlayer | fpl/pipeline/data_pipeline.py:40-56 | A normal run needs `season` and `gameweek`. It yields one sample per row of the first player, before the other players' samples. |

## Left out

- Azure I/O: the blob service is a map from container URL to a listing and blob bytes. Clients, credentials and the network are not modelled.
- UTF-8 decoding is a partial function on blob bytes. A blob that does not decode raises.
- The file system is a set of directories and a map from path to file content. Permissions, symbolic links and other operating-system errors are not modelled: a path lookup fails only with NotADirectoryError, at a regular file on the way, or FileNotFoundError.
- Parsing YAML configs and JSON snapshots: the config is a `load` parameter, and a snapshot file is the JSON value read or the exception raised. JSON syntax is not modelled.
- CSV formatting, the pandas dtype inference of `read_csv`, and pyarrow's parquet encoding: a CSV line is its row of values, and a parquet file is its rows.
- Floating point and NaN: the fill value `0.0` is an opaque real, and null stands for NaN/None.
- TensorFlow's `Dataset.from_generator`, dtypes and the shape check of `output_signature` (`fpl/pipeline/data_pipeline.py:58-64`).
- Progress bars: only the `Bar` maximum and step count, and `to_parquet`'s tqdm total, are modelled.
- `print` in the converters' exception handlers: a skipped file leaves no trace in the model.
- `get_parquet`: it is imported by the training-data generator but defined in no source file, so it is not part of this model. The dataset is a table input, and filtering by code is `RowsOf`.
- `paths.get_interim_data_path`: it is defined in no source file, so it is not part of this model. `Converter.DataConverter.constructor` takes both paths as given, and the default raw path is `Paths.RawDataPath`.
- Converter.DataConverter.constructor: does not model the defaults for omitted paths, because the interim default calls a function that does not exist.
- BlobImporter.Iterate: a dict-valued `STORAGE_CONTAINERS` would iterate over its keys. The model treats any value other than a list or string as raising TypeError at the loop.
- Blob names containing `/`, `.` or `..` are treated as plain names.
- DataPipeline.PlayerRowsSorted: proves sortedness and permutation, not the stability of `sort_values` among rows with equal season and gameweek.
- Transformations.CalculateDiff: the contract states length, null positions and the first two positions. The values from position 2 on are characterised by `RunningTotal`, `DiffThenCumulate` and `CumulateThenDiff` for columns without nulls.
- MakeParquet.PartDir: a partition directory is kept as its column and value, not as the name `col=value` pyarrow spells. The model takes distinct values of a column to name distinct directories. That holds for pyarrow's spelling of integers, floats and URI-escaped strings, except for a string equal to the null marker `__HIVE_DEFAULT_PARTITION__`, which would share null's directory.
- MakeParquet.ChunkFiles: a chunk with no rows writes no file. This is the one chunk of a CSV with a header and no data rows. A file holding only the schema, which pyarrow may write for it, is not modelled.
- MakeParquet.NoPartitionFiles: with no data rows it states that no file is written, following `MakeParquet.ChunkFiles` above.
- ConverterClass.InterimFolder: each folder argument is taken as one path component. Python's `Path(main_data_folder, main_interim_folder)` also splits an argument at `/` and restarts at an absolute argument; the model does not.
- ConverterClass.DataConverter.constructor: the folder arguments are joined as in `ConverterClass.InterimFolder` above, one component each.
- Frames: sorting keys with null or non-integer values is not modelled. `groupby` drops rows with a null key, and key columns are assumed to hold integers.
- The `__main__` block of `fpl/data/make_parquet.py:36-41`: it only calls `to_parquet` on fixed paths.

## Findings

| source | as written | input that shows it | evidently intended | confidence | as-written member | corrected member |
|---|---|---|---|---|---|---|
| fpl/data_import/blob_importer.py:24-28 | The private path attributes are assigned only when their argument is `None`, so given arguments are dropped. | `BlobImporter(config_file_path=p)`: reading the unassigned `__config_file_path` raises AttributeError. With `raw_data_path=p`, the download raises AttributeError. | Keep each given path, as `fpl/data/blob_importer.py:24-31` does. | not executed | LegacyBlobImporter.InitAsWrittenLosesArguments | LegacyBlobImporter.Init |
| fpl/pipeline/data_pipeline.py:20-23 | `lst[i - n : i]` with a negative start counts from the end of the list. | `_chunks([1, 2, 3], 2)` yields `[]`, `[]`, `[1, 2]`: window 1 loses element 1. With 10-row windows, a player's first 10 samples are all padding. | `lst[max(i - n, 0) : i]`, giving `[]`, `[1]`, `[1, 2]`. | not executed | DataPipeline.ChunksLoseEarlyWindows | DataPipeline.ChunksClampedWindows |

The rest of the model uses the corrected definitions:
- the older importer's class is built with `LegacyBlobImporter.Init`;
- `DataPipeline.IngestPlayers` cuts windows with `DataPipeline.ChunksClamped`.

The as-written `DataPipeline.Chunks` and `DataPipeline.EarlySamplesArePadding` record what the source does.
