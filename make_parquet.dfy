/**
 * `to_parquet`: the CSV read in chunks of `chunk_size` rows, each chunk written as a
 * hive-partitioned dataset of files named `chunk_<y>_0` under the output directory.
 */
module MakeParquet {
  import opened Exceptions
  import opened Json
  import opened Text
  import opened Frames

  type Row = seq<Value>

  /**
   * A hive partition directory `col=value`, kept as the column and the value it is named
   * after: one directory per distinct value of the column.
   */
  datatype PartDir = PartDir(col: string, value: Value)

  /** A file's path below the output directory: its partition directories, then its name. */
  datatype FilePath = FilePath(dirs: seq<PartDir>, name: string)

  /** The files under the output directory, by their path relative to it. */
  type Dataset = map<FilePath, Table>

  // ---------------------------------------------------------------------------------
  // Chunk arithmetic
  // ---------------------------------------------------------------------------------

  /** `n // c if n % c == 0 else n // c + 1`: the number of chunks of size `c` in `n` items. */
  function NChunks(n: nat, c: nat): nat
    requires c > 0
  {
    if n % c == 0 then n / c else n / c + 1
  }

  lemma {:induction false} MulAtLeast(k: nat, d: int)
    requires d > 0
    ensures k >= 1 ==> k * d >= d
    decreases k
  {
    if k > 1 {
      MulAtLeast(k - 1, d);
      assert k * d == (k - 1) * d + d;
    }
  }

  lemma MulGap(a: int, b: int, d: int)
    requires b < a && d > 0
    ensures b * d + d <= a * d
  {
    assert a * d - b * d == (a - b) * d;
    MulAtLeast(a - b, d);
  }

  lemma DivModUnique(x: int, d: int, q: int, r: int)
    requires d > 0 && x == q * d + r && 0 <= r < d
    ensures x / d == q && x % d == r
  {
    var q' := x / d;
    if q' < q {
      MulGap(q, q', d);
      assert false;
    }
    if q < q' {
      MulGap(q', q, d);
      assert false;
    }
  }

  lemma NChunksStep(n: nat, c: nat)
    requires 0 < c < n
    ensures NChunks(n, c) == NChunks(n - c, c) + 1
  {
    DivModUnique(n - c, c, n / c - 1, n % c);
  }

  lemma NChunksSmall(n: nat, c: nat)
    requires 0 < n <= c
    ensures NChunks(n, c) == 1
  {
    if n < c {
      DivModUnique(n, c, 0, n);
    } else {
      DivModUnique(n, c, 1, 0);
    }
  }

  /**
   * The progress total counts the header line too: it is the number of chunks read, plus
   * one exactly when the data rows fill their last chunk.
   */
  lemma ProgressTotal(n: nat, c: nat)
    requires c > 0
    ensures NChunks(n + 1, c) == NChunks(n, c) + (if n % c == 0 then 1 else 0)
  {
    var q := n / c;
    var r := n % c;
    if r + 1 < c {
      DivModUnique(n + 1, c, q, r + 1);
    } else {
      DivModUnique(n + 1, c, q + 1, 0);
    }
  }

  // ---------------------------------------------------------------------------------
  // Chunks
  // ---------------------------------------------------------------------------------

  /**
   * The frames `pd.read_csv(path, chunksize=c)` yields: `c` rows each, the last one shorter.
   * A CSV with a header and no data rows yields one empty frame.
   */
  function Chunks(rows: seq<Row>, c: nat): (cks: seq<seq<Row>>)
    requires c > 0
    ensures 0 < |cks|
    ensures forall y :: 0 <= y < |cks| ==> |cks[y]| <= c && (rows != [] ==> 0 < |cks[y]|)
    decreases |rows|
  {
    if |rows| <= c then [rows]
    else [rows[..c]] + Chunks(rows[c..], c)
  }

  function Flatten(cks: seq<seq<Row>>): seq<Row>
    decreases |cks|
  {
    if cks == [] then [] else cks[0] + Flatten(cks[1..])
  }

  /** The chunks, in order, are the data rows. */
  lemma {:induction false} ChunksCover(rows: seq<Row>, c: nat)
    requires c > 0
    ensures Flatten(Chunks(rows, c)) == rows
    decreases |rows|
  {
    if |rows| > c {
      ChunksCover(rows[c..], c);
      var cks := Chunks(rows, c);
      assert cks[1..] == Chunks(rows[c..], c);
      assert rows == rows[..c] + rows[c..];
    }
  }

  /** `read_csv` yields `NChunks(N, c)` frames for N > 0 data rows, and one for none. */
  lemma {:induction false} ChunksCount(rows: seq<Row>, c: nat)
    requires c > 0
    ensures |Chunks(rows, c)| == if rows == [] then 1 else NChunks(|rows|, c)
    decreases |rows|
  {
    if rows != [] {
      if |rows| <= c {
        NChunksSmall(|rows|, c);
      } else {
        ChunksCount(rows[c..], c);
        NChunksStep(|rows|, c);
      }
    }
  }

  function Min(a: int, b: int): int {
    if a <= b then a else b
  }

  /** Chunk y holds the data rows y*c up to (y+1)*c, or to the end. */
  lemma {:induction false} ChunkRange(rows: seq<Row>, c: nat, y: nat)
    requires c > 0 && y < |Chunks(rows, c)|
    ensures y * c <= |rows| && (rows != [] ==> y * c < |rows|)
    ensures Chunks(rows, c)[y] == rows[y * c .. Min((y + 1) * c, |rows|)]
    decreases y
  {
    if y > 0 {
      var rest := rows[c..];
      assert Chunks(rows, c)[y] == Chunks(rest, c)[y - 1];
      ChunkRange(rest, c, y - 1);
      ShiftBounds(y, c, |rest|);
      var lo, hi := (y - 1) * c, Min(y * c, |rest|);
      assert rest[lo..hi] == rows[lo + c .. hi + c];
    }
  }

  lemma ShiftBounds(y: nat, c: nat, n: nat)
    requires y > 0
    ensures (y - 1) * c + c == y * c
    ensures Min(y * c, n) + c == Min((y + 1) * c, n + c)
  {
    assert (y + 1) * c == y * c + c;
  }

  /** The first chunk is the first `c` rows or all of them; the others chunk what is left. */
  lemma ChunksHead(rows: seq<Row>, c: nat)
    requires c > 0
    ensures var m := Min(|rows|, c);
      Chunks(rows, c)[0] == rows[..m] && Chunks(rows, c)[1..] == if |rows| <= c then [] else Chunks(rows[m..], c)
  {
  }

  ghost predicate ChunksWidth(cks: seq<seq<Row>>, w: nat) {
    forall y :: 0 <= y < |cks| ==> Width(cks[y], w)
  }

  lemma {:induction false} ChunksKeepWidth(rows: seq<Row>, c: nat, w: nat)
    requires c > 0 && Width(rows, w)
    ensures ChunksWidth(Chunks(rows, c), w)
    decreases |rows|
  {
    if |rows| > c {
      ChunksKeepWidth(rows[c..], c, w);
      assert Width(rows[..c], w);
    }
  }

  // ---------------------------------------------------------------------------------
  // Names and partition directories
  // ---------------------------------------------------------------------------------

  /** `basename_template=f"chunk_{y}_{{i}}"` with `{i}` the first file of a directory. */
  function ChunkName(y: nat): string {
    "chunk_" + NatToString(y) + "_0"
  }

  lemma ChunkNameInjective(a: nat, b: nat)
    ensures ChunkName(a) == ChunkName(b) <==> a == b
  {
    if ChunkName(a) == ChunkName(b) {
      var s := ChunkName(a);
      assert NatToString(a) == s[6..|s| - 2] == NatToString(b);
      NatToStringInjective(a, b);
    }
  }

  /** The positions of the partition columns; None when one of them is not a column. */
  function ColumnPositions(columns: seq<string>, cols: seq<string>): (r: Option<seq<nat>>)
    ensures r.Some? ==> |r.value| == |cols|
    ensures r.Some? ==> forall j :: 0 <= j < |cols| ==> r.value[j] < |columns| && columns[r.value[j]] == cols[j]
    ensures r.None? <==> exists j :: 0 <= j < |cols| && cols[j] !in columns
  {
    if cols == [] then Some([])
    else
      match IndexOf(columns, cols[0])
      case None => None
      case Some(i) =>
        match ColumnPositions(columns, cols[1..])
        case None =>
          var j :| 0 <= j < |cols[1..]| && cols[1..][j] !in columns;
          assert cols[j + 1] !in columns;
          None
        case Some(rest) =>
          assert forall j :: 1 <= j < |cols| ==> cols[j] == cols[1..][j - 1];
          Some([i] + rest)
  }

  /** The columns below `n` that are not partition columns, ascending: what a file stores. */
  function KeptColumns(n: nat, idx: seq<nat>): (ks: seq<nat>)
    ensures forall a :: 0 <= a < |ks| ==> ks[a] < n
  {
    if n == 0 then []
    else KeptColumns(n - 1, idx) + (if n - 1 in idx then [] else [n - 1])
  }

  /** A file keeps every column that is not a partition column, each once, in table order. */
  lemma {:induction false} KeptColumnsSpec(n: nat, idx: seq<nat>)
    ensures var ks := KeptColumns(n, idx);
      && (forall j :: j in ks <==> 0 <= j < n && j !in idx)
      && (forall a, b :: 0 <= a < b < |ks| ==> ks[a] < ks[b])
  {
    if n > 0 {
      KeptColumnsSpec(n - 1, idx);
    }
  }

  lemma {:induction false} KeptAll(n: nat)
    ensures KeptColumns(n, []) == seq(n, j => j)
  {
    if n > 0 {
      KeptAll(n - 1);
      assert seq(n, j => j) == seq(n - 1, j => j) + [n - 1];
    }
  }

  function Project<T>(xs: seq<T>, keep: seq<nat>): (ys: seq<T>)
    requires forall a :: 0 <= a < |keep| ==> keep[a] < |xs|
    ensures |ys| == |keep|
  {
    seq(|keep|, a requires 0 <= a < |keep| => xs[keep[a]])
  }

  /** The layout the partitioning gives the arguments. */
  ghost predicate Layout(w: nat, cols: seq<string>, idx: seq<nat>, keep: seq<nat>) {
    && |idx| == |cols|
    && (forall j :: 0 <= j < |idx| ==> idx[j] < w)
    && (forall a :: 0 <= a < |keep| ==> keep[a] < w)
  }

  /** The nested `col=value` directories of a row. */
  function RowDirs(row: Row, cols: seq<string>, idx: seq<nat>): (ds: seq<PartDir>)
    requires |idx| == |cols| && forall j :: 0 <= j < |idx| ==> idx[j] < |row|
    ensures |ds| == |cols|
  {
    seq(|cols|, j requires 0 <= j < |cols| => PartDir(cols[j], row[idx[j]]))
  }

  /** The rows of `chunk` that go in the directories `dirs`, in order, without the partition cells. */
  function Select(chunk: seq<Row>, w: nat, cols: seq<string>, idx: seq<nat>, keep: seq<nat>, dirs: seq<PartDir>)
    : (rows: seq<Row>)
    requires Width(chunk, w) && Layout(w, cols, idx, keep)
    ensures |rows| <= |chunk|
    decreases |chunk|
  {
    if chunk == [] then []
    else
      var n := |chunk| - 1;
      var before := Select(chunk[..n], w, cols, idx, keep, dirs);
      if RowDirs(chunk[n], cols, idx) == dirs then before + [Project(chunk[n], keep)] else before
  }

  /** Every row that goes in `dirs` is selected, without its partition cells ... */
  lemma {:induction false} SelectHolds(chunk: seq<Row>, w: nat, cols: seq<string>, idx: seq<nat>, keep: seq<nat>,
                                       dirs: seq<PartDir>, i: nat)
    requires Width(chunk, w) && Layout(w, cols, idx, keep) && i < |chunk| && RowDirs(chunk[i], cols, idx) == dirs
    ensures Project(chunk[i], keep) in Select(chunk, w, cols, idx, keep, dirs)
    decreases |chunk|
  {
    var n := |chunk| - 1;
    var before := Select(chunk[..n], w, cols, idx, keep, dirs);
    if i < n {
      assert chunk[..n][i] == chunk[i];
      SelectHolds(chunk[..n], w, cols, idx, keep, dirs, i);
      assert Select(chunk, w, cols, idx, keep, dirs) == before + [Project(chunk[n], keep)]
          || Select(chunk, w, cols, idx, keep, dirs) == before;
    }
  }

  /** ... and nothing else is. */
  lemma {:induction false} SelectOrigin(chunk: seq<Row>, w: nat, cols: seq<string>, idx: seq<nat>, keep: seq<nat>,
                                        dirs: seq<PartDir>, r: Row)
    requires Width(chunk, w) && Layout(w, cols, idx, keep) && r in Select(chunk, w, cols, idx, keep, dirs)
    ensures exists i :: 0 <= i < |chunk| && RowDirs(chunk[i], cols, idx) == dirs && r == Project(chunk[i], keep)
    decreases |chunk|
  {
    var n := |chunk| - 1;
    var before := Select(chunk[..n], w, cols, idx, keep, dirs);
    if r in before {
      SelectOrigin(chunk[..n], w, cols, idx, keep, dirs, r);
      var i :| 0 <= i < n && RowDirs(chunk[..n][i], cols, idx) == dirs && r == Project(chunk[..n][i], keep);
      assert chunk[..n][i] == chunk[i];
    } else {
      assert RowDirs(chunk[n], cols, idx) == dirs && r == Project(chunk[n], keep);
    }
  }

  /**
   * One `write_dataset` call for chunk y: a file `chunk_<y>_0` in each partition directory
   * the chunk touches, the chunk's rows appended in order to the file of their partition,
   * without the partition columns.
   */
  function ChunkFiles(columns: seq<string>, chunk: seq<Row>, cols: seq<string>, idx: seq<nat>,
                      keep: seq<nat>, y: nat): Dataset
    requires Width(chunk, |columns|) && Layout(|columns|, cols, idx, keep)
    decreases |chunk|
  {
    if chunk == [] then map[]
    else
      var n := |chunk| - 1;
      var files := ChunkFiles(columns, chunk[..n], cols, idx, keep, y);
      var p := FilePath(RowDirs(chunk[n], cols, idx), ChunkName(y));
      var rows := if p in files then files[p].rows else [];
      files[p := Table(Project(columns, keep), rows + [Project(chunk[n], keep)])]
  }

  /**
   * The file of directories `dirs` exists exactly when some row of the chunk goes there, and
   * then it holds exactly those rows, in chunk order.
   */
  lemma {:induction false} ChunkFilesSelect(columns: seq<string>, chunk: seq<Row>, cols: seq<string>,
                                            idx: seq<nat>, keep: seq<nat>, y: nat, dirs: seq<PartDir>)
    requires Width(chunk, |columns|) && Layout(|columns|, cols, idx, keep)
    ensures var files := ChunkFiles(columns, chunk, cols, idx, keep, y);
      var sel := Select(chunk, |columns|, cols, idx, keep, dirs);
      var p := FilePath(dirs, ChunkName(y));
      && (p in files <==> sel != [])
      && (p in files ==> files[p] == Table(Project(columns, keep), sel))
    decreases |chunk|
  {
    if chunk != [] {
      var n := |chunk| - 1;
      ChunkFilesSelect(columns, chunk[..n], cols, idx, keep, y, dirs);
    }
  }

  /** Each row of the chunk is in the file of its partition, without its partition cells. */
  lemma ChunkFilesHoldRows(columns: seq<string>, chunk: seq<Row>, cols: seq<string>, idx: seq<nat>,
                           keep: seq<nat>, y: nat, i: nat)
    requires Width(chunk, |columns|) && Layout(|columns|, cols, idx, keep) && i < |chunk|
    ensures var files := ChunkFiles(columns, chunk, cols, idx, keep, y);
      var p := FilePath(RowDirs(chunk[i], cols, idx), ChunkName(y));
      p in files && Project(chunk[i], keep) in files[p].rows
  {
    ChunkFilesSelect(columns, chunk, cols, idx, keep, y, RowDirs(chunk[i], cols, idx));
    SelectHolds(chunk, |columns|, cols, idx, keep, RowDirs(chunk[i], cols, idx), i);
  }

  lemma {:induction false} ChunkFilesOrigin(columns: seq<string>, chunk: seq<Row>, cols: seq<string>,
                                            idx: seq<nat>, keep: seq<nat>, y: nat, p: FilePath)
    requires Width(chunk, |columns|) && Layout(|columns|, cols, idx, keep)
    requires p in ChunkFiles(columns, chunk, cols, idx, keep, y)
    ensures exists i :: 0 <= i < |chunk| && p == FilePath(RowDirs(chunk[i], cols, idx), ChunkName(y))
    decreases |chunk|
  {
    var n := |chunk| - 1;
    if p != FilePath(RowDirs(chunk[n], cols, idx), ChunkName(y)) {
      ChunkFilesOrigin(columns, chunk[..n], cols, idx, keep, y, p);
      var i :| 0 <= i < n && p == FilePath(RowDirs(chunk[..n][i], cols, idx), ChunkName(y));
      assert chunk[..n][i] == chunk[i];
    }
  }

  /** The files of a chunk are those of the directories its rows go in. */
  lemma ChunkFilesKeys(columns: seq<string>, chunk: seq<Row>, cols: seq<string>, idx: seq<nat>,
                       keep: seq<nat>, y: nat, p: FilePath)
    requires Width(chunk, |columns|) && Layout(|columns|, cols, idx, keep)
    ensures p in ChunkFiles(columns, chunk, cols, idx, keep, y) <==>
            exists i :: 0 <= i < |chunk| && p == FilePath(RowDirs(chunk[i], cols, idx), ChunkName(y))
  {
    var files := ChunkFiles(columns, chunk, cols, idx, keep, y);
    if p in files {
      ChunkFilesOrigin(columns, chunk, cols, idx, keep, y, p);
    } else {
      forall i | 0 <= i < |chunk| ensures p != FilePath(RowDirs(chunk[i], cols, idx), ChunkName(y)) {
        ChunkFilesHoldRows(columns, chunk, cols, idx, keep, y, i);
      }
    }
  }

  /** Every file of chunk y is named `chunk_<y>_0` and lies one directory per partition column deep. */
  lemma ChunkFilesNames(columns: seq<string>, chunk: seq<Row>, cols: seq<string>, idx: seq<nat>,
                        keep: seq<nat>, y: nat, p: FilePath)
    requires Width(chunk, |columns|) && Layout(|columns|, cols, idx, keep)
    requires p in ChunkFiles(columns, chunk, cols, idx, keep, y)
    ensures |p.dirs| == |cols| && p.name == ChunkName(y)
  {
    ChunkFilesKeys(columns, chunk, cols, idx, keep, y, p);
  }

  // ---------------------------------------------------------------------------------
  // The run
  // ---------------------------------------------------------------------------------

  /** The chunks from number y on, each written over what is there (`overwrite_or_ignore`). */
  function WriteChunks(out: Dataset, columns: seq<string>, cks: seq<seq<Row>>, cols: seq<string>,
                       idx: seq<nat>, keep: seq<nat>, y: nat): Dataset
    requires ChunksWidth(cks, |columns|) && Layout(|columns|, cols, idx, keep)
    decreases |cks|
  {
    if cks == [] then out
    else WriteChunks(out + ChunkFiles(columns, cks[0], cols, idx, keep, y), columns, cks[1..], cols, idx, keep, y + 1)
  }

  /**
   * `to_parquet(path, output_path, chunk_size, partition_cols)` with `csv` the table at `path`
   * and `existing` the files already under `output_path`.
   */
  function ToParquetSpec(existing: Dataset, csv: Table, chunkSize: int, partitionCols: Option<seq<string>>)
    : Outcome<Dataset>
    requires Rectangular(csv)
  {
    if chunkSize == 0 then Raise(ZeroDivisionError)
    else if chunkSize < 0 then Raise(ValueError)
    else
      var cks := Chunks(csv.rows, chunkSize);
      var cols := partitionCols.GetOr([]);
      match ColumnPositions(csv.columns, cols)
      case None => Raise(PartitionColumnMissing)
      case Some(idx) =>
        ChunksKeepWidth(csv.rows, chunkSize, |csv.columns|);
        Ok(WriteChunks(existing, csv.columns, cks, cols, idx, KeptColumns(|csv.columns|, idx), 0))
  }

  /** The first chunk, what is left after it, and the chunks of both have the table's width. */
  lemma ChunksHeadWidth(rest: seq<Row>, c: nat, w: nat)
    requires c > 0 && Width(rest, w)
    ensures var m := Min(|rest|, c);
      && ChunksWidth(Chunks(rest, c), w)
      && Width(rest[..m], w) && Width(rest[m..], w)
      && ChunksWidth(Chunks(rest[m..], c), w)
  {
    var m := Min(|rest|, c);
    assert Width(rest[..m], w) && Width(rest[m..], w);
    ChunksKeepWidth(rest, c, w);
    ChunksKeepWidth(rest[m..], c, w);
  }

  /** Writing the chunks of `rest` is writing its first chunk, then the chunks of what is left. */
  lemma WriteChunksStep(out: Dataset, columns: seq<string>, rest: seq<Row>, c: nat, cols: seq<string>,
                        idx: seq<nat>, keep: seq<nat>, y: nat)
    requires c > 0 && Width(rest, |columns|) && Layout(|columns|, cols, idx, keep)
    ensures var m := Min(|rest|, c);
      && ChunksWidth(Chunks(rest, c), |columns|)
      && Width(rest[..m], |columns|) && Width(rest[m..], |columns|)
      && ChunksWidth(Chunks(rest[m..], c), |columns|)
      && var out' := out + ChunkFiles(columns, rest[..m], cols, idx, keep, y);
         WriteChunks(out, columns, Chunks(rest, c), cols, idx, keep, y)
         == if |rest| <= c then out' else WriteChunks(out', columns, Chunks(rest[m..], c), cols, idx, keep, y + 1)
  {
    var m := Min(|rest|, c);
    ChunksHeadWidth(rest, c, |columns|);
    ChunksHead(rest, c);
    var cks := Chunks(rest, c);
    var out' := out + ChunkFiles(columns, rest[..m], cols, idx, keep, y);
    assert WriteChunks(out, columns, cks, cols, idx, keep, y) == WriteChunks(out', columns, cks[1..], cols, idx, keep, y + 1);
    if |rest| <= c {
      assert cks[1..] == [];
    } else {
      assert cks[1..] == Chunks(rest[m..], c);
    }
  }

  /** The loop over the chunks, once the partition columns are known to exist. */
  method WriteAll(columns: seq<string>, rows: seq<Row>, chunkSize: nat, cols: seq<string>,
                  idx: seq<nat>, keep: seq<nat>, existing: Dataset) returns (out: Dataset)
    requires chunkSize > 0 && Width(rows, |columns|) && Layout(|columns|, cols, idx, keep)
    requires ChunksWidth(Chunks(rows, chunkSize), |columns|)
    ensures out == WriteChunks(existing, columns, Chunks(rows, chunkSize), cols, idx, keep, 0)
  {
    out := existing;
    var rest := rows;
    var y := 0;
    // Like `read_csv`, the loop yields one (empty) chunk when there are no rows.
    while y == 0 || rest != []
      invariant Width(rest, |columns|) && ChunksWidth(Chunks(rest, chunkSize), |columns|)
      invariant WriteChunks(existing, columns, Chunks(rows, chunkSize), cols, idx, keep, 0)
             == if y > 0 && rest == [] then out else WriteChunks(out, columns, Chunks(rest, chunkSize), cols, idx, keep, y)
      decreases |rest| + (if y == 0 then 1 else 0)
    {
      var m := if |rest| <= chunkSize then |rest| else chunkSize;
      WriteChunksStep(out, columns, rest, chunkSize, cols, idx, keep, y);
      out := out + ChunkFiles(columns, rest[..m], cols, idx, keep, y);
      rest := rest[m..];
      y := y + 1;
    }
  }

  /**
   * `to_parquet`: `total` is the progress bar's total. Reading the CSV is not modelled:
   * `csv` is the table pandas parses, one line per row after the header line. There is always
   * a first `write_dataset` call, even for an empty frame, so a missing partition column
   * always raises.
   */
  method ToParquet(csv: Table, existing: Dataset, chunkSize: int, partitionCols: Option<seq<string>>)
    returns (r: Outcome<Dataset>, total: int)
    requires Rectangular(csv)
    ensures r == ToParquetSpec(existing, csv, chunkSize, partitionCols)
    ensures chunkSize > 0 ==> total == NChunks(1 + |csv.rows|, chunkSize)
  {
    var numLines := 1 + |csv.rows|;
    if chunkSize == 0 {
      return Raise(ZeroDivisionError), 0;
    }
    if chunkSize < 0 {
      return Raise(ValueError), 0;
    }
    total := NChunks(numLines, chunkSize);
    var cols := partitionCols.GetOr([]);
    var positions := ColumnPositions(csv.columns, cols);
    if positions.None? {
      return Raise(PartitionColumnMissing), total;
    }
    ChunksKeepWidth(csv.rows, chunkSize, |csv.columns|);
    var keep := KeptColumns(|csv.columns|, positions.value);
    var out := WriteAll(csv.columns, csv.rows, chunkSize, cols, positions.value, keep, existing);
    return Ok(out), total;
  }

  // ---------------------------------------------------------------------------------
  // What a run leaves under the output directory
  // ---------------------------------------------------------------------------------

  /** The files each chunk's `write_dataset` call writes, chunk y on. */
  function ChunkMaps(columns: seq<string>, cks: seq<seq<Row>>, cols: seq<string>, idx: seq<nat>,
                    keep: seq<nat>, y: nat): (fs: seq<Dataset>)
    requires ChunksWidth(cks, |columns|) && Layout(|columns|, cols, idx, keep)
    ensures |fs| == |cks|
    decreases |cks|
  {
    if cks == [] then []
    else [ChunkFiles(columns, cks[0], cols, idx, keep, y)] + ChunkMaps(columns, cks[1..], cols, idx, keep, y + 1)
  }

  lemma {:induction false} ChunkMapsAt(columns: seq<string>, cks: seq<seq<Row>>, cols: seq<string>, idx: seq<nat>,
                                       keep: seq<nat>, y: nat, z: nat)
    requires ChunksWidth(cks, |columns|) && Layout(|columns|, cols, idx, keep) && z < |cks|
    ensures ChunkMaps(columns, cks, cols, idx, keep, y)[z] == ChunkFiles(columns, cks[z], cols, idx, keep, y + z)
    decreases z
  {
    if z > 0 {
      assert cks[1..][z - 1] == cks[z];
      ChunkMapsAt(columns, cks[1..], cols, idx, keep, y + 1, z - 1);
    }
  }

  /** The files of several writes, a later one winning. */
  function Union(fs: seq<Dataset>): Dataset
    decreases |fs|
  {
    if fs == [] then map[] else fs[0] + Union(fs[1..])
  }

  /** No two writes write the same file. */
  ghost predicate Disjoint(fs: seq<Dataset>) {
    forall a, b, p :: 0 <= a < |fs| && 0 <= b < |fs| && a != b && p in fs[a] ==> p !in fs[b]
  }

  lemma {:induction false} UnionOrigin(fs: seq<Dataset>, p: FilePath)
    requires p in Union(fs)
    ensures exists z :: 0 <= z < |fs| && p in fs[z]
    decreases |fs|
  {
    if p !in fs[0] {
      UnionOrigin(fs[1..], p);
      var z :| 0 <= z < |fs[1..]| && p in fs[1..][z];
      assert fs[z + 1] == fs[1..][z];
    }
  }

  lemma {:induction false} UnionMissing(fs: seq<Dataset>, p: FilePath)
    requires forall z :: 0 <= z < |fs| ==> p !in fs[z]
    ensures p !in Union(fs)
    decreases |fs|
  {
    if fs != [] {
      assert forall z :: 0 <= z < |fs[1..]| ==> fs[1..][z] == fs[z + 1];
      UnionMissing(fs[1..], p);
    }
  }

  /** With disjoint writes, each file holds what its one write put there. */
  lemma {:induction false} UnionAt(fs: seq<Dataset>, z: nat, p: FilePath)
    requires Disjoint(fs) && z < |fs| && p in fs[z]
    ensures p in Union(fs) && Union(fs)[p] == fs[z][p]
    decreases |fs|
  {
    var rest := fs[1..];
    assert Disjoint(rest) by {
      forall a, b, q | 0 <= a < |rest| && 0 <= b < |rest| && a != b && q in rest[a] ensures q !in rest[b] {
        assert rest[a] == fs[a + 1] && rest[b] == fs[b + 1];
      }
    }
    if z == 0 {
      forall z' | 0 <= z' < |rest| ensures p !in rest[z'] {
        assert rest[z'] == fs[z' + 1];
      }
      UnionMissing(rest, p);
    } else {
      assert rest[z - 1] == fs[z];
      UnionAt(rest, z - 1, p);
    }
  }

  lemma ChunkMapsApart(columns: seq<string>, cks: seq<seq<Row>>, cols: seq<string>, idx: seq<nat>,
                       keep: seq<nat>, y: nat, a: nat, b: nat, p: FilePath)
    requires ChunksWidth(cks, |columns|) && Layout(|columns|, cols, idx, keep)
    requires a < |cks| && b < |cks| && a != b
    requires p in ChunkMaps(columns, cks, cols, idx, keep, y)[a]
    ensures p !in ChunkMaps(columns, cks, cols, idx, keep, y)[b]
  {
    ChunkMapsAt(columns, cks, cols, idx, keep, y, a);
    ChunkMapsAt(columns, cks, cols, idx, keep, y, b);
    ChunkFilesNames(columns, cks[a], cols, idx, keep, y + a, p);
    ChunkNameInjective(y + a, y + b);
    if p in ChunkMaps(columns, cks, cols, idx, keep, y)[b] {
      ChunkFilesNames(columns, cks[b], cols, idx, keep, y + b, p);
    }
  }

  /** Chunks write differently named files. */
  lemma ChunkMapsDisjoint(columns: seq<string>, cks: seq<seq<Row>>, cols: seq<string>, idx: seq<nat>,
                          keep: seq<nat>, y: nat)
    requires ChunksWidth(cks, |columns|) && Layout(|columns|, cols, idx, keep)
    ensures Disjoint(ChunkMaps(columns, cks, cols, idx, keep, y))
  {
    var fs := ChunkMaps(columns, cks, cols, idx, keep, y);
    forall a, b, p | 0 <= a < |fs| && 0 <= b < |fs| && a != b && p in fs[a] ensures p !in fs[b] {
      ChunkMapsApart(columns, cks, cols, idx, keep, y, a, b, p);
    }
  }

  /** Writing chunk after chunk over `out` is writing all their files over it at once. */
  lemma {:induction false} WriteChunksIsUnion(out: Dataset, columns: seq<string>, cks: seq<seq<Row>>,
                                              cols: seq<string>, idx: seq<nat>, keep: seq<nat>, y: nat)
    requires ChunksWidth(cks, |columns|) && Layout(|columns|, cols, idx, keep)
    ensures WriteChunks(out, columns, cks, cols, idx, keep, y) == out + Union(ChunkMaps(columns, cks, cols, idx, keep, y))
    decreases |cks|
  {
    if cks != [] {
      var f := ChunkFiles(columns, cks[0], cols, idx, keep, y);
      assert ChunksWidth(cks[1..], |columns|);
      var rest := ChunkMaps(columns, cks[1..], cols, idx, keep, y + 1);
      assert ChunkMaps(columns, cks, cols, idx, keep, y) == [f] + rest;
      assert ([f] + rest)[1..] == rest;
      WriteChunksIsUnion(out + f, columns, cks[1..], cols, idx, keep, y + 1);
      MapUnionAssoc(out, f, Union(rest));
    }
  }

  lemma MapUnionAssoc(a: Dataset, b: Dataset, c: Dataset)
    ensures (a + b) + c == a + (b + c)
  {
  }

  /** Row n of the CSV is row n % c of chunk n / c. */
  lemma {:induction false} ChunkOfRow(rows: seq<Row>, c: nat, n: nat)
    requires c > 0 && n < |rows|
    ensures n / c < |Chunks(rows, c)|
    ensures n % c < |Chunks(rows, c)[n / c]| && Chunks(rows, c)[n / c][n % c] == rows[n]
    decreases |rows|
  {
    if n < c {
      DivModUnique(n, c, 0, n);
    } else {
      DivModUnique(n, c, (n - c) / c + 1, (n - c) % c);
      ChunkOfRow(rows[c..], c, n - c);
    }
  }

  /** The partition layout of a run whose partition columns all exist. */
  ghost predicate Partitioned(csv: Table, chunkSize: int, cols: seq<string>) {
    Rectangular(csv) && chunkSize > 0 && ColumnPositions(csv.columns, cols).Some?
  }

  /** The files a run writes. */
  ghost function RunFiles(csv: Table, chunkSize: int, cols: seq<string>): Dataset
    requires Partitioned(csv, chunkSize, cols)
  {
    var idx := ColumnPositions(csv.columns, cols).value;
    ChunksKeepWidth(csv.rows, chunkSize, |csv.columns|);
    Union(ChunkMaps(csv.columns, Chunks(csv.rows, chunkSize), cols, idx, KeptColumns(|csv.columns|, idx), 0))
  }

  /**
   * `existing_data_behavior="overwrite_or_ignore"`: the run's files replace files of the same
   * name, and every other file already there is left as it was.
   */
  lemma OverwriteOrIgnore(existing: Dataset, csv: Table, chunkSize: int, partitionCols: Option<seq<string>>)
    requires Partitioned(csv, chunkSize, partitionCols.GetOr([]))
    ensures var w := RunFiles(csv, chunkSize, partitionCols.GetOr([]));
      && ToParquetSpec(existing, csv, chunkSize, partitionCols).Ok?
      && var out := ToParquetSpec(existing, csv, chunkSize, partitionCols).value;
      && out.Keys == existing.Keys + w.Keys
      && (forall p :: p in w ==> out[p] == w[p])
      && (forall p :: p in existing && p !in w ==> out[p] == existing[p])
  {
    var cols := partitionCols.GetOr([]);
    var idx := ColumnPositions(csv.columns, cols).value;
    ChunksKeepWidth(csv.rows, chunkSize, |csv.columns|);
    WriteChunksIsUnion(existing, csv.columns, Chunks(csv.rows, chunkSize), cols, idx, KeptColumns(|csv.columns|, idx), 0);
  }

  /** Running again with the same chunking rewrites the same files with the same rows. */
  lemma RerunChangesNothing(existing: Dataset, csv: Table, chunkSize: int, partitionCols: Option<seq<string>>)
    requires Partitioned(csv, chunkSize, partitionCols.GetOr([]))
    ensures var out := ToParquetSpec(existing, csv, chunkSize, partitionCols);
      out.Ok? && ToParquetSpec(out.value, csv, chunkSize, partitionCols) == out
  {
    var cols := partitionCols.GetOr([]);
    var idx := ColumnPositions(csv.columns, cols).value;
    var keep := KeptColumns(|csv.columns|, idx);
    var cks := Chunks(csv.rows, chunkSize);
    ChunksKeepWidth(csv.rows, chunkSize, |csv.columns|);
    var w := Union(ChunkMaps(csv.columns, cks, cols, idx, keep, 0));
    WriteChunksIsUnion(existing, csv.columns, cks, cols, idx, keep, 0);
    WriteChunksIsUnion(existing + w, csv.columns, cks, cols, idx, keep, 0);
    assert (existing + w) + w == existing + w;
  }

  /** Row i of chunk y is in the file `chunk_<y>_0` of its partition directories. */
  lemma ChunkRowStored(csv: Table, chunkSize: int, cols: seq<string>, y: nat, i: nat)
    requires Partitioned(csv, chunkSize, cols)
    requires y < |Chunks(csv.rows, chunkSize)| && i < |Chunks(csv.rows, chunkSize)[y]|
    ensures var idx := ColumnPositions(csv.columns, cols).value;
      var w := RunFiles(csv, chunkSize, cols);
      var row := Chunks(csv.rows, chunkSize)[y][i];
      ChunksWidth(Chunks(csv.rows, chunkSize), |csv.columns|)
      && var p := FilePath(RowDirs(row, cols, idx), ChunkName(y));
         p in w && Project(row, KeptColumns(|csv.columns|, idx)) in w[p].rows
  {
    var idx := ColumnPositions(csv.columns, cols).value;
    var keep := KeptColumns(|csv.columns|, idx);
    var cks := Chunks(csv.rows, chunkSize);
    ChunksKeepWidth(csv.rows, chunkSize, |csv.columns|);
    ChunkFilesHoldRows(csv.columns, cks[y], cols, idx, keep, y, i);
    var p := FilePath(RowDirs(cks[y][i], cols, idx), ChunkName(y));
    var fs := ChunkMaps(csv.columns, cks, cols, idx, keep, 0);
    ChunkMapsAt(csv.columns, cks, cols, idx, keep, 0, y);
    ChunkMapsDisjoint(csv.columns, cks, cols, idx, keep, 0);
    UnionAt(fs, y, p);
  }

  /**
   * Every data row ends up in the file `chunk_<n / chunk_size>_0` of its partition
   * directories, with its cells other than the partition columns.
   */
  lemma RowStored(csv: Table, chunkSize: int, cols: seq<string>, n: nat)
    requires Partitioned(csv, chunkSize, cols) && n < |csv.rows|
    ensures var idx := ColumnPositions(csv.columns, cols).value;
      var w := RunFiles(csv, chunkSize, cols);
      var p := FilePath(RowDirs(csv.rows[n], cols, idx), ChunkName(n / chunkSize));
      p in w && Project(csv.rows[n], KeptColumns(|csv.columns|, idx)) in w[p].rows
  {
    ChunkOfRow(csv.rows, chunkSize, n);
    ChunkRowStored(csv, chunkSize, cols, n / chunkSize, n % chunkSize);
  }

  /** Row i of chunk y is data row y * c + i. */
  lemma ChunkRowNumber(rows: seq<Row>, c: nat, y: nat, i: nat) returns (n: nat)
    requires c > 0 && y < |Chunks(rows, c)| && i < |Chunks(rows, c)[y]|
    ensures n < |rows| && n / c == y && Chunks(rows, c)[y][i] == rows[n]
  {
    ChunkRange(rows, c, y);
    n := y * c + i;
    DivModUnique(n, c, y, i);
  }

  /** Every row of a chunk is a data row. */
  lemma ChunkRowIndex(rows: seq<Row>, c: nat, y: nat, i: nat) returns (n: nat)
    requires c > 0 && y < |Chunks(rows, c)| && i < |Chunks(rows, c)[y]|
    ensures n < |rows| && Chunks(rows, c)[y][i] == rows[n]
  {
    n := ChunkRowNumber(rows, c, y, i);
  }

  lemma RunFileOrigin(csv: Table, chunkSize: int, cols: seq<string>, p: FilePath)
    requires Partitioned(csv, chunkSize, cols) && p in RunFiles(csv, chunkSize, cols)
    ensures var idx := ColumnPositions(csv.columns, cols).value;
      var cks := Chunks(csv.rows, chunkSize);
      ChunksWidth(cks, |csv.columns|) &&
      exists y, i :: 0 <= y < |cks| && 0 <= i < |cks[y]| && p == FilePath(RowDirs(cks[y][i], cols, idx), ChunkName(y))
  {
    var idx := ColumnPositions(csv.columns, cols).value;
    var keep := KeptColumns(|csv.columns|, idx);
    var cks := Chunks(csv.rows, chunkSize);
    ChunksKeepWidth(csv.rows, chunkSize, |csv.columns|);
    var fs := ChunkMaps(csv.columns, cks, cols, idx, keep, 0);
    UnionOrigin(fs, p);
    var y :| 0 <= y < |fs| && p in fs[y];
    ChunkMapsAt(csv.columns, cks, cols, idx, keep, 0, y);
    ChunkFilesOrigin(csv.columns, cks[y], cols, idx, keep, y, p);
  }

  /**
   * The files of a run are exactly `<dirs of row n>/chunk_<n / chunk_size>_0` for the data
   * rows n.
   */
  lemma RunFileRowNumber(csv: Table, chunkSize: int, cols: seq<string>, p: FilePath)
    requires Partitioned(csv, chunkSize, cols) && p in RunFiles(csv, chunkSize, cols)
    ensures var idx := ColumnPositions(csv.columns, cols).value;
      exists n :: 0 <= n < |csv.rows| && p == FilePath(RowDirs(csv.rows[n], cols, idx), ChunkName(n / chunkSize))
  {
    var idx := ColumnPositions(csv.columns, cols).value;
    var cks := Chunks(csv.rows, chunkSize);
    RunFileOrigin(csv, chunkSize, cols, p);
    var y, i :| 0 <= y < |cks| && 0 <= i < |cks[y]| && p == FilePath(RowDirs(cks[y][i], cols, idx), ChunkName(y));
    var n := ChunkRowNumber(csv.rows, chunkSize, y, i);
    assert p == FilePath(RowDirs(csv.rows[n], cols, idx), ChunkName(n / chunkSize));
  }

  lemma RunFileKeys(csv: Table, chunkSize: int, cols: seq<string>, p: FilePath)
    requires Partitioned(csv, chunkSize, cols)
    ensures var idx := ColumnPositions(csv.columns, cols).value;
      p in RunFiles(csv, chunkSize, cols) <==>
      exists n :: 0 <= n < |csv.rows| && p == FilePath(RowDirs(csv.rows[n], cols, idx), ChunkName(n / chunkSize))
  {
    var idx := ColumnPositions(csv.columns, cols).value;
    if p in RunFiles(csv, chunkSize, cols) {
      RunFileRowNumber(csv, chunkSize, cols, p);
    } else {
      forall n | 0 <= n < |csv.rows| ensures p != FilePath(RowDirs(csv.rows[n], cols, idx), ChunkName(n / chunkSize)) {
        RowStored(csv, chunkSize, cols, n);
      }
    }
  }

  /**
   * Each file of a run is `chunk_<y>_0` for a chunk y that has rows in its directories, and
   * holds exactly those rows of the chunk, in order, without the partition columns.
   */
  lemma RunFileContents(csv: Table, chunkSize: int, cols: seq<string>, p: FilePath)
    requires Partitioned(csv, chunkSize, cols) && p in RunFiles(csv, chunkSize, cols)
    ensures var idx := ColumnPositions(csv.columns, cols).value;
      var keep := KeptColumns(|csv.columns|, idx);
      var cks := Chunks(csv.rows, chunkSize);
      && ChunksWidth(cks, |csv.columns|)
      && |p.dirs| == |cols|
      && exists y :: 0 <= y < |cks| && p.name == ChunkName(y)
           && var sel := Select(cks[y], |csv.columns|, cols, idx, keep, p.dirs);
              sel != [] && RunFiles(csv, chunkSize, cols)[p] == Table(Project(csv.columns, keep), sel)
  {
    var idx := ColumnPositions(csv.columns, cols).value;
    var keep := KeptColumns(|csv.columns|, idx);
    var cks := Chunks(csv.rows, chunkSize);
    var y := RunFileChunk(csv, chunkSize, cols, p);
    ChunkFilesNames(csv.columns, cks[y], cols, idx, keep, y, p);
    assert p == FilePath(p.dirs, ChunkName(y));
    ChunkFilesSelect(csv.columns, cks[y], cols, idx, keep, y, p.dirs);
  }

  /** Each file of a run is the file one chunk's write left there. */
  lemma RunFileChunk(csv: Table, chunkSize: int, cols: seq<string>, p: FilePath) returns (y: nat)
    requires Partitioned(csv, chunkSize, cols) && p in RunFiles(csv, chunkSize, cols)
    ensures var idx := ColumnPositions(csv.columns, cols).value;
      var keep := KeptColumns(|csv.columns|, idx);
      var cks := Chunks(csv.rows, chunkSize);
      && ChunksWidth(cks, |csv.columns|)
      && y < |cks|
      && var files := ChunkFiles(csv.columns, cks[y], cols, idx, keep, y);
         p in files && RunFiles(csv, chunkSize, cols)[p] == files[p]
  {
    var idx := ColumnPositions(csv.columns, cols).value;
    var keep := KeptColumns(|csv.columns|, idx);
    var cks := Chunks(csv.rows, chunkSize);
    ChunksKeepWidth(csv.rows, chunkSize, |csv.columns|);
    var fs := ChunkMaps(csv.columns, cks, cols, idx, keep, 0);
    UnionOrigin(fs, p);
    y :| 0 <= y < |fs| && p in fs[y];
    ChunkMapsAt(csv.columns, cks, cols, idx, keep, 0, y);
    ChunkMapsDisjoint(csv.columns, cks, cols, idx, keep, 0);
    UnionAt(fs, y, p);
  }

  lemma {:induction false} SelectEvery(chunk: seq<Row>, w: nat, keep: seq<nat>)
    requires Width(chunk, w) && Layout(w, [], [], keep)
    ensures Select(chunk, w, [], [], keep, []) == seq(|chunk|, i requires 0 <= i < |chunk| => Project(chunk[i], keep))
    decreases |chunk|
  {
    if chunk != [] {
      var n := |chunk| - 1;
      SelectEvery(chunk[..n], w, keep);
      assert RowDirs(chunk[n], [], []) == [];
    }
  }

  /** Without partition columns a chunk's one file holds the whole chunk. */
  lemma WholeChunk(chunk: seq<Row>, w: nat)
    requires Width(chunk, w)
    ensures var keep := KeptColumns(w, []);
      Layout(w, [], [], keep) && Select(chunk, w, [], [], keep, []) == chunk
  {
    var keep := KeptColumns(w, []);
    KeptAll(w);
    SelectEvery(chunk, w, keep);
    forall i | 0 <= i < |chunk| ensures Project(chunk[i], keep) == chunk[i] {
    }
  }

  /**
   * Without partition columns each chunk y writes one file `chunk_<y>_0` at the top of the
   * output directory, when there are data rows ...
   */
  lemma NoPartitionFiles(csv: Table, chunkSize: int, p: FilePath)
    requires Partitioned(csv, chunkSize, [])
    ensures var cks := Chunks(csv.rows, chunkSize);
      p in RunFiles(csv, chunkSize, []) <==>
      csv.rows != [] && exists y :: 0 <= y < |cks| && p == FilePath([], ChunkName(y))
  {
    var cks := Chunks(csv.rows, chunkSize);
    var w := RunFiles(csv, chunkSize, []);
    if p in w {
      RunFileOrigin(csv, chunkSize, [], p);
      var y, i :| 0 <= y < |cks| && 0 <= i < |cks[y]| && p == FilePath(RowDirs(cks[y][i], [], []), ChunkName(y));
      assert p == FilePath([], ChunkName(y));
    } else if csv.rows != [] {
      forall y | 0 <= y < |cks| ensures p != FilePath([], ChunkName(y)) {
        ChunkRowStored(csv, chunkSize, [], y, 0);
        assert RowDirs(cks[y][0], [], []) == [];
      }
    }
  }

  /** ... holding the whole chunk, every column included. */
  lemma NoPartitionContents(csv: Table, chunkSize: int, p: FilePath)
    requires Partitioned(csv, chunkSize, []) && p in RunFiles(csv, chunkSize, [])
    ensures var cks := Chunks(csv.rows, chunkSize);
      exists y :: 0 <= y < |cks| && p == FilePath([], ChunkName(y)) && RunFiles(csv, chunkSize, [])[p] == Table(csv.columns, cks[y])
  {
    var cks := Chunks(csv.rows, chunkSize);
    var w := RunFiles(csv, chunkSize, []);
    var keep := KeptColumns(|csv.columns|, []);
    KeptAll(|csv.columns|);
    assert Project(csv.columns, keep) == csv.columns;
    RunFileContents(csv, chunkSize, [], p);
    var y :| 0 <= y < |cks| && p.name == ChunkName(y)
      && var sel := Select(cks[y], |csv.columns|, [], [], keep, p.dirs);
         sel != [] && w[p] == Table(Project(csv.columns, keep), sel);
    assert p == FilePath([], ChunkName(y));
    WholeChunk(cks[y], |csv.columns|);
  }

  /** One `col=value` directory per distinct value. */
  lemma {:induction false} PartDirsCount(col: string, vs: set<Value>)
    ensures |set v | v in vs :: PartDir(col, v)| == |vs|
    decreases |vs|
  {
    if vs != {} {
      var v :| v in vs;
      var rest := vs - {v};
      PartDirsCount(col, rest);
      var img := set u | u in vs :: PartDir(col, u);
      var imgRest := set u | u in rest :: PartDir(col, u);
      assert img == imgRest + {PartDir(col, v)};
    }
  }

  /** Each file lies in the partition directories of some data row. */
  lemma RunFileRow(csv: Table, chunkSize: int, cols: seq<string>, p: FilePath)
    requires Partitioned(csv, chunkSize, cols) && p in RunFiles(csv, chunkSize, cols)
    ensures var idx := ColumnPositions(csv.columns, cols).value;
      exists n :: 0 <= n < |csv.rows| && p.dirs == RowDirs(csv.rows[n], cols, idx)
  {
    var idx := ColumnPositions(csv.columns, cols).value;
    var cks := Chunks(csv.rows, chunkSize);
    RunFileOrigin(csv, chunkSize, cols, p);
    var y, i :| 0 <= y < |cks| && 0 <= i < |cks[y]| && p == FilePath(RowDirs(cks[y][i], cols, idx), ChunkName(y));
    var n := ChunkRowIndex(csv.rows, chunkSize, y, i);
  }

  /** Each row's value of the first partition column has a directory holding a file. */
  lemma FileOfTopDir(csv: Table, chunkSize: int, cols: seq<string>, n: nat)
    requires Partitioned(csv, chunkSize, cols) && cols != [] && n < |csv.rows|
    ensures var i0 := ColumnPositions(csv.columns, cols).value[0];
      exists p :: p in RunFiles(csv, chunkSize, cols) && |p.dirs| > 0 && p.dirs[0] == PartDir(cols[0], csv.rows[n][i0])
  {
    var idx := ColumnPositions(csv.columns, cols).value;
    var cks := Chunks(csv.rows, chunkSize);
    ChunkOfRow(csv.rows, chunkSize, n);
    var y, i := n / chunkSize, n % chunkSize;
    ChunkRowStored(csv, chunkSize, cols, y, i);
    var p := FilePath(RowDirs(cks[y][i], cols, idx), ChunkName(y));
    assert p.dirs[0] == RowDirs(csv.rows[n], cols, idx)[0];
  }

  /** The directories at the top of the output directory. */
  ghost function TopDirs(w: Dataset): set<PartDir> {
    set p | p in w && p.dirs != [] :: p.dirs[0]
  }

  /** The values of column `c` over the data rows. */
  ghost function ColumnValues(csv: Table, c: nat): set<Value>
    requires Rectangular(csv) && c < |csv.columns|
  {
    set n | 0 <= n < |csv.rows| :: csv.rows[n][c]
  }

  /**
   * The top level of the output directory: one `col=value` directory for each value of the
   * first partition column ...
   */
  lemma TopLevelDirectories(csv: Table, chunkSize: int, cols: seq<string>)
    requires Partitioned(csv, chunkSize, cols) && cols != []
    ensures var i0 := ColumnPositions(csv.columns, cols).value[0];
      TopDirs(RunFiles(csv, chunkSize, cols)) == set v | v in ColumnValues(csv, i0) :: PartDir(cols[0], v)
  {
    var idx := ColumnPositions(csv.columns, cols).value;
    var i0 := idx[0];
    var w := RunFiles(csv, chunkSize, cols);
    forall d | d in TopDirs(w) ensures d in set v | v in ColumnValues(csv, i0) :: PartDir(cols[0], v) {
      var p :| p in w && p.dirs != [] && p.dirs[0] == d;
      RunFileRow(csv, chunkSize, cols, p);
      var n :| 0 <= n < |csv.rows| && p.dirs == RowDirs(csv.rows[n], cols, idx);
      assert d == PartDir(cols[0], csv.rows[n][i0]);
    }
    forall d | d in set v | v in ColumnValues(csv, i0) :: PartDir(cols[0], v) ensures d in TopDirs(w) {
      var v :| v in ColumnValues(csv, i0) && d == PartDir(cols[0], v);
      var n :| 0 <= n < |csv.rows| && v == csv.rows[n][i0];
      FileOfTopDir(csv, chunkSize, cols, n);
    }
  }

  /** ... so there are as many top-level directories as the column has distinct values. */
  lemma TopLevelCount(csv: Table, chunkSize: int, cols: seq<string>)
    requires Partitioned(csv, chunkSize, cols) && cols != []
    ensures var i0 := ColumnPositions(csv.columns, cols).value[0];
      |TopDirs(RunFiles(csv, chunkSize, cols))| == |ColumnValues(csv, i0)|
  {
    var i0 := ColumnPositions(csv.columns, cols).value[0];
    TopLevelDirectories(csv, chunkSize, cols);
    PartDirsCount(cols[0], ColumnValues(csv, i0));
  }
}
