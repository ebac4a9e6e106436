/**
 * The training-data generator: players in order of first appearance, each player's rows in
 * (season, gameweek) order, cut into windows, and each window padded to a fixed length.
 */
module DataPipeline {
  import opened Exceptions
  import opened Json
  import opened Frames
  import opened Sorting

  // ---------------------------------------------------------------------------------
  // _chunks
  // ---------------------------------------------------------------------------------

  /** Where a slice bound lands in a list of length `n`: a negative bound counts from the end; both are clamped. */
  function SliceBound(x: int, n: nat): (b: nat)
    ensures b <= n
  {
    if x < 0 then (if x + n < 0 then 0 else x + n) else if x < n then x else n
  }

  /** `lst[start:stop]`. */
  function PySlice<T>(lst: seq<T>, start: int, stop: int): seq<T> {
    var s := SliceBound(start, |lst|);
    var t := SliceBound(stop, |lst|);
    if s < t then lst[s..t] else []
  }

  /** `_chunks(lst, n)` as written: one window `lst[i - n:i]` for each position i. */
  function Chunks<T>(lst: seq<T>, n: int): (ws: seq<seq<T>>)
    ensures |ws| == |lst|
  {
    seq(|lst|, i requires 0 <= i < |lst| => PySlice(lst, i - n, i))
  }

  /**
   * Every window is a run of elements that ends just before its own position: window 0 is
   * empty, and the last element is in no window.
   */
  lemma ChunksEndBefore<T>(lst: seq<T>, n: int, i: nat)
    requires i < |lst|
    ensures exists s :: 0 <= s <= i && Chunks(lst, n)[i] == lst[s..i]
    ensures i == 0 ==> Chunks(lst, n)[i] == []
  {
    var s := SliceBound(i - n, |lst|);
    assert SliceBound(i, |lst|) == i;
    assert Chunks(lst, n)[i] == PySlice(lst, i - n, i);
    if s < i {
      assert PySlice(lst, i - n, i) == lst[s..i];
    } else {
      assert PySlice(lst, i - n, i) == [] == lst[i..i];
    }
  }

  /** From position n on, window i is exactly the n elements before position i. */
  lemma ChunksFull<T>(lst: seq<T>, n: nat, i: nat)
    requires n <= i < |lst|
    ensures Chunks(lst, n)[i] == lst[i - n..i]
    ensures |Chunks(lst, n)[i]| == n
  {
    assert SliceBound(i - n, |lst|) == i - n && SliceBound(i, |lst|) == i;
    assert Chunks(lst, n)[i] == PySlice(lst, i - n, i);
    if n == 0 {
      assert lst[i..i] == [];
    }
  }

  /**
   * Before position n the start is negative and counts from the end of the list: the window
   * is empty once the list has n elements, and otherwise starts `n - i` from the end.
   */
  lemma ChunksEarly<T>(lst: seq<T>, n: int, i: nat)
    requires i < |lst| && i < n
    ensures |lst| >= n ==> Chunks(lst, n)[i] == []
    ensures |lst| < n ==> Chunks(lst, n)[i] == lst[if |lst| + i < n then 0 else |lst| + i - n..i]
  {
    var start := SliceBound(i - n, |lst|);
    assert start == (if |lst| + i < n then 0 else |lst| + i - n) && SliceBound(i, |lst|) == i;
    assert Chunks(lst, n)[i] == PySlice(lst, i - n, i);
    if |lst| < n && start == i {
      assert lst[i..i] == [];
    }
  }

  /** `_chunks` as evidently intended: window i is the at most n elements just before position i. */
  function ChunksClamped<T>(lst: seq<T>, n: nat): (ws: seq<seq<T>>)
    ensures |ws| == |lst|
  {
    seq(|lst|, i requires 0 <= i < |lst| => lst[if i < n then 0 else i - n..i])
  }

  /**
   * The intended windows: window i holds `min(i, n)` elements, the ones right before
   * position i, so every window after the first is non-empty when n > 0.
   */
  lemma ChunksClampedWindows<T>(lst: seq<T>, n: nat, i: nat)
    requires i < |lst|
    ensures var w := ChunksClamped(lst, n)[i];
      && |w| == (if i < n then i else n)
      && w == lst[i - |w|..i]
      && (0 < i && 0 < n ==> w != [] && w[|w| - 1] == lst[i - 1])
  {
  }

  /** The two agree from position n on, and on every position when the list is shorter than n... */
  lemma ChunksAgreeFromN<T>(lst: seq<T>, n: nat, i: nat)
    requires n <= i < |lst|
    ensures Chunks(lst, n)[i] == ChunksClamped(lst, n)[i]
  {
    ChunksFull(lst, n, i);
  }

  /** ...but once the list has n elements, the windows 1 to n - 1 as written lose their elements. */
  lemma ChunksLoseEarlyWindows<T>(lst: seq<T>, n: nat, i: nat)
    requires 0 < i < n <= |lst|
    ensures Chunks(lst, n)[i] == []
    ensures ChunksClamped(lst, n)[i] == lst[..i] && ChunksClamped(lst, n)[i] != []
  {
    ChunksEarly(lst, n, i);
  }

  /** For instance, with windows of 2 over three elements, window 1 should hold the first element. */
  lemma ChunksExample()
    ensures Chunks([1, 2, 3], 2) == [[], [], [1, 2]]
    ensures ChunksClamped([1, 2, 3], 2) == [[], [1], [1, 2]]
  {
    assert Chunks([1, 2, 3], 2)[0] == [];
    assert Chunks([1, 2, 3], 2)[1] == [];
    assert Chunks([1, 2, 3], 2)[2] == [1, 2, 3][0..2] == [1, 2];
    assert ChunksClamped([1, 2, 3], 2)[0] == [];
    assert ChunksClamped([1, 2, 3], 2)[1] == [1, 2, 3][0..1] == [1];
    assert ChunksClamped([1, 2, 3], 2)[2] == [1, 2, 3][0..2] == [1, 2];
  }

  /** No window, as written or as intended, has more than n elements. */
  lemma WindowsAtMostN<T>(lst: seq<T>, n: nat, i: nat)
    requires i < |lst|
    ensures |Chunks(lst, n)[i]| <= n && |ChunksClamped(lst, n)[i]| <= n
  {
    if i < n {
      ChunksEarly(lst, n, i);
    } else {
      ChunksFull(lst, n, i);
    }
  }

  // ---------------------------------------------------------------------------------
  // _pad_to_length
  // ---------------------------------------------------------------------------------

  function ZeroRow<T>(width: nat, zero: T): (r: seq<T>)
    ensures |r| == width && forall j :: 0 <= j < width ==> r[j] == zero
  {
    seq(width, j => zero)
  }

  /**
   * `np.pad(x, ((m - rows, 0), (0, 0)), mode="constant")` on a `width`-column matrix: `m - rows`
   * zero rows in front of x; a negative count raises ValueError.
   */
  function PadToLength<T>(x: seq<seq<T>>, m: int, width: nat, zero: T): (r: Outcome<seq<seq<T>>>)
    ensures r.Ok? <==> |x| <= m
    ensures r.Ok? ==> && |r.value| == m
                      && r.value[m - |x|..] == x
                      && forall i :: 0 <= i < m - |x| ==> r.value[i] == ZeroRow(width, zero)
  {
    if m < |x| then Raise(ValueError)
    else
      var r := seq(m - |x|, i => ZeroRow(width, zero)) + x;
      assert r[m - |x|..] == x;
      Ok(r)
  }

  /** Every window pads to any length of at least n, and window n does not pad to a shorter one. */
  lemma WindowsPad<T>(lst: seq<seq<T>>, n: nat, m: int, width: nat, zero: T)
    ensures n <= m ==> forall i :: 0 <= i < |lst| ==> PadToLength(Chunks(lst, n)[i], m, width, zero).Ok?
    ensures m < n < |lst| ==> PadToLength(Chunks(lst, n)[n], m, width, zero) == Raise(ValueError)
  {
    forall i | 0 <= i < |lst| && n <= m ensures PadToLength(Chunks(lst, n)[i], m, width, zero).Ok? {
      WindowsAtMostN(lst, n, i);
    }
    if m < n < |lst| {
      ChunksFull(lst, n, n);
    }
  }

  // ---------------------------------------------------------------------------------
  // Players in order of first appearance
  // ---------------------------------------------------------------------------------

  /** `.unique()`: each value once, in order of first appearance. */
  function Unique<T(==)>(s: seq<T>): seq<T>
    decreases |s|
  {
    if s == [] then []
    else
      var r := Unique(s[..|s| - 1]);
      if s[|s| - 1] in r then r else r + [s[|s| - 1]]
  }

  /** A value is among the unique values exactly when it occurs. */
  lemma {:induction false} UniqueMember<T>(s: seq<T>, y: T)
    ensures y in Unique(s) <==> y in s
    decreases |s|
  {
    if s != [] {
      UniqueMember(s[..|s| - 1], y);
      assert s == s[..|s| - 1] + [s[|s| - 1]];
    }
  }

  /**
   * The unique values are the values of `s`, each once, and a value comes before another
   * exactly when it appears first: the later one does not occur before the earlier one does.
   */
  lemma {:induction false} UniqueSpec<T>(s: seq<T>)
    ensures var r := Unique(s);
      && (forall x :: x in r <==> x in s)
      && Distinct(r)
      && (forall a, b, k :: 0 <= a < b < |r| && 0 <= k < |s| && s[k] == r[b] ==> r[a] in s[..k])
    decreases |s|
  {
    if s != [] {
      var t := s[..|s| - 1];
      var x := s[|s| - 1];
      UniqueSpec(t);
      var r := Unique(s);
      var q := Unique(t);
      assert s == t + [x];
      forall y ensures y in r <==> y in s {
        UniqueMember(s, y);
      }
      forall a, b, k | 0 <= a < b < |r| && 0 <= k < |s| && s[k] == r[b] ensures r[a] in s[..k] {
        assert a < |q| && r[a] == q[a];
        if k < |t| {
          assert s[k] == t[k] && s[..k] == t[..k];
          if b < |q| {
            assert r[b] == q[b];
            assert q[a] in t[..k];
          } else {
            assert false;
          }
        } else {
          UniqueMember(t, q[a]);
          assert s[..k] == t;
        }
      }
    }
  }

  // ---------------------------------------------------------------------------------
  // Each player's rows, ordered
  // ---------------------------------------------------------------------------------

  type Row = seq<Value>

  /** Row cell `j`, or null past its end. */
  function Cell(row: Row, j: nat): Value {
    if j < |row| then row[j] else Null
  }

  /** Sort rank of a season or gameweek cell: integers by value, everything else last. */
  predicate CellLe(a: Value, b: Value) {
    !b.Int? || (a.Int? && a.i <= b.i)
  }

  /** `sort_values(by=["season", "gameweek"])`: by season, then by gameweek. */
  predicate RowLe(a: Row, b: Row, si: nat, gi: nat) {
    var sa := Cell(a, si);
    var sb := Cell(b, si);
    if CellLe(sa, sb) && CellLe(sb, sa) then CellLe(Cell(a, gi), Cell(b, gi)) else CellLe(sa, sb)
  }

  function RowOrder(si: nat, gi: nat): (Row, Row) -> bool {
    (a: Row, b: Row) => RowLe(a, b, si, gi)
  }

  lemma RowOrderTotalPreorder(si: nat, gi: nat)
    ensures TotalPreorder(RowOrder(si, gi))
  {
    var le := RowOrder(si, gi);
    forall a: Row, b: Row, c: Row | le(a, b) && le(b, c) ensures le(a, c) {
      assert RowLe(a, b, si, gi) && RowLe(b, c, si, gi);
    }
  }

  /** The rows whose `code` cell is `player`, in table order. */
  function RowsOf(rows: seq<Row>, ci: nat, player: Value): (r: seq<Row>)
    decreases |rows|
  {
    if rows == [] then []
    else
      var n := |rows| - 1;
      RowsOf(rows[..n], ci, player) + (if Cell(rows[n], ci) == player then [rows[n]] else [])
  }

  /** The rows of a player are the rows with that code, as many times as they occur. */
  lemma {:induction false} RowsOfSpec(rows: seq<Row>, ci: nat, player: Value)
    ensures forall r :: r in RowsOf(rows, ci, player) <==> r in rows && Cell(r, ci) == player
    ensures forall r :: Cell(r, ci) == player ==> multiset(RowsOf(rows, ci, player))[r] == multiset(rows)[r]
    decreases |rows|
  {
    if rows != [] {
      var n := |rows| - 1;
      RowsOfSpec(rows[..n], ci, player);
      assert rows == rows[..n] + [rows[n]];
    }
  }

  /** One player's rows in (season, gameweek) order. */
  function PlayerRows(rows: seq<Row>, ci: nat, si: nat, gi: nat, player: Value): seq<Row> {
    Sort(RowsOf(rows, ci, player), RowOrder(si, gi))
  }

  /**
   * A player's rows are exactly the rows with that code, with their multiplicities, sorted by
   * season and then gameweek.
   */
  lemma PlayerRowsSorted(rows: seq<Row>, ci: nat, si: nat, gi: nat, player: Value)
    ensures var ps := PlayerRows(rows, ci, si, gi, player);
      && multiset(ps) == multiset(RowsOf(rows, ci, player))
      && (forall r :: r in ps <==> r in rows && Cell(r, ci) == player)
      && forall a, b :: 0 <= a < b < |ps| ==> RowLe(ps[a], ps[b], si, gi)
  {
    var ps := PlayerRows(rows, ci, si, gi, player);
    RowOrderTotalPreorder(si, gi);
    SortSorted(RowsOf(rows, ci, player), RowOrder(si, gi));
    RowsOfSpec(rows, ci, player);
    forall r ensures r in ps <==> r in rows && Cell(r, ci) == player {
      SortMembers(RowsOf(rows, ci, player), RowOrder(si, gi), r);
    }
    forall a, b | 0 <= a < b < |ps| ensures RowLe(ps[a], ps[b], si, gi) {
      assert RowOrder(si, gi)(ps[a], ps[b]);
    }
  }

  // ---------------------------------------------------------------------------------
  // Samples
  // ---------------------------------------------------------------------------------

  /** The columns that are not features, besides `web_name`. */
  const NonFeatures: seq<string> := ["team_code", "code", "gameweek", "season", "total_points", "target"]

  /** Window length used by the generator. */
  const WindowSize := 10

  /** The positions of the feature columns: all but `web_name` and the non-features. */
  function FeatureColumns(columns: seq<string>): (ks: seq<nat>)
    ensures forall a :: 0 <= a < |ks| ==> ks[a] < |columns|
    decreases |columns|
  {
    if columns == [] then []
    else
      var n := |columns| - 1;
      FeatureColumns(columns[..n]) + (if columns[n] == "web_name" || columns[n] in NonFeatures then [] else [n])
  }

  /** The feature columns are, in table order, exactly those not named `web_name` or a non-feature. */
  lemma {:induction false} FeatureColumnsSpec(columns: seq<string>)
    ensures var ks := FeatureColumns(columns);
      && (forall j :: j in ks <==> 0 <= j < |columns| && columns[j] != "web_name" && columns[j] !in NonFeatures)
      && (forall a, b :: 0 <= a < b < |ks| ==> ks[a] < ks[b])
    decreases |columns|
  {
    if columns != [] {
      var n := |columns| - 1;
      FeatureColumnsSpec(columns[..n]);
    }
  }

  /** `fillna(fill)` on one cell. */
  function FillNull(v: Value, fill: Value): Value {
    if v == Null then fill else v
  }

  /** `chunk.loc[:, feature columns].fillna(0.0)`. */
  function Features(window: seq<Row>, ks: seq<nat>): (x: seq<Row>)
    ensures |x| == |window| && forall r :: 0 <= r < |x| ==> |x[r]| == |ks|
  {
    seq(|window|, r requires 0 <= r < |window| =>
      seq(|ks|, a requires 0 <= a < |ks| => FillNull(Cell(window[r], ks[a]), Real(0.0))))
  }

  /** `chunk[["target"]].fillna(0)`. */
  function Labels(window: seq<Row>, ti: nat): (y: seq<Row>)
    ensures |y| == |window| && forall r :: 0 <= r < |y| ==> |y[r]| == 1
  {
    seq(|window|, r requires 0 <= r < |window| => [FillNull(Cell(window[r], ti), Int(0))])
  }

  /** One yielded pair: the padded inputs and the padded labels. */
  datatype Sample = Sample(x: seq<Row>, y: seq<Row>)

  /** What the generator yields, and the exception that ends it early, if one does. */
  datatype Stream = Stream(samples: seq<Sample>, exc: Option<Exc>)

  /** The samples of a player's windows, in window order. */
  function WindowSamples(windows: seq<seq<Row>>, ks: seq<nat>, ti: Option<nat>, seqLen: int): Stream
    decreases |windows|
  {
    if windows == [] then Stream([], None)
    else if ti.None? then Stream([], Some(KeyError))
    else
      match PadToLength(Features(windows[0], ks), seqLen, |ks|, Real(0.0))
      case Raise(e) => Stream([], Some(e))
      case Ok(x) =>
        match PadToLength(Labels(windows[0], ti.value), seqLen, 1, Int(0))
        case Raise(e) => Stream([], Some(e))
        case Ok(y) =>
          var rest := WindowSamples(windows[1..], ks, ti, seqLen);
          Stream([Sample(x, y)] + rest.samples, rest.exc)
  }

  /**
   * A run that ends normally yields one sample per window: sample k is window k's features and
   * labels, each with zero rows in front up to `seqLen` rows.
   */
  lemma {:induction false} WindowSamplesAt(windows: seq<seq<Row>>, ks: seq<nat>, ti: Option<nat>, seqLen: int, k: nat)
    requires WindowSamples(windows, ks, ti, seqLen).exc == None && k < |windows|
    ensures var s := WindowSamples(windows, ks, ti, seqLen).samples;
      && ti.Some?
      && |s| == |windows|
      && PadToLength(Features(windows[k], ks), seqLen, |ks|, Real(0.0)) == Ok(s[k].x)
      && PadToLength(Labels(windows[k], ti.value), seqLen, 1, Int(0)) == Ok(s[k].y)
    decreases |windows|
  {
    if k > 0 {
      WindowSamplesAt(windows[1..], ks, ti, seqLen, k - 1);
    } else if |windows| > 1 {
      WindowSamplesAt(windows[1..], ks, ti, seqLen, 0);
    }
  }

  /** Every cell of the matrix is a value. */
  predicate NoNulls(m: seq<Row>) {
    forall r, a :: 0 <= r < |m| && 0 <= a < |m[r]| ==> m[r][a] != Null
  }

  /** Padding with a non-null zero adds no null. */
  lemma PadKeepsNoNulls(x: seq<Row>, m: int, width: nat, zero: Value)
    requires NoNulls(x) && zero != Null && |x| <= m
    ensures NoNulls(PadToLength(x, m, width, zero).value)
  {
    var p := PadToLength(x, m, width, zero).value;
    forall r | m - |x| <= r < m ensures p[r] == x[r - (m - |x|)] {
      assert p[r] == p[m - |x|..][r - (m - |x|)];
    }
  }

  /** The features and labels of a window have their nulls filled. */
  lemma FilledNoNulls(window: seq<Row>, ks: seq<nat>, ti: nat)
    ensures NoNulls(Features(window, ks)) && NoNulls(Labels(window, ti))
  {
  }

  /** No sample holds a null: inputs and labels have their nulls filled, and padding is zeros. */
  lemma NoNullsInSamples(windows: seq<seq<Row>>, ks: seq<nat>, ti: Option<nat>, seqLen: int, k: nat)
    requires WindowSamples(windows, ks, ti, seqLen).exc == None && k < |windows|
    ensures var ss := WindowSamples(windows, ks, ti, seqLen).samples;
      && |ss| == |windows|
      && |ss[k].x| == seqLen && |ss[k].y| == seqLen
      && NoNulls(ss[k].x) && NoNulls(ss[k].y)
  {
    WindowSamplesAt(windows, ks, ti, seqLen, k);
    FilledNoNulls(windows[k], ks, ti.value);
    PadKeepsNoNulls(Features(windows[k], ks), seqLen, |ks|, Real(0.0));
    PadKeepsNoNulls(Labels(windows[k], ti.value), seqLen, 1, Int(0));
  }

  /**
   * As written, a player with at least `WindowSize` rows yields first samples whose inputs are
   * all padding: windows 0 to 9 are empty.
   */
  lemma EarlySamplesArePadding(rows: seq<Row>, ks: seq<nat>, ti: Option<nat>, seqLen: int, k: nat)
    requires WindowSamples(Chunks(rows, WindowSize), ks, ti, seqLen).exc == None
    requires WindowSize <= |rows| && k < WindowSize
    ensures var ss := WindowSamples(Chunks(rows, WindowSize), ks, ti, seqLen).samples;
      && |ss| == |rows|
      && |ss[k].x| == seqLen
      && forall r :: 0 <= r < seqLen ==> ss[k].x[r] == ZeroRow(|ks|, Real(0.0))
  {
    WindowSamplesAt(Chunks(rows, WindowSize), ks, ti, seqLen, k);
    if k > 0 {
      ChunksEarly(rows, WindowSize, k);
    } else {
      ChunksEndBefore(rows, WindowSize, 0);
    }
  }

  /**
   * With the intended windows, every sample after a player's first ends with the features
   * of the row just before it, not with padding.
   */
  lemma ClampedSamplesEndWithPreviousRow(rows: seq<Row>, ks: seq<nat>, ti: Option<nat>, seqLen: int, k: nat)
    requires WindowSamples(ChunksClamped(rows, WindowSize), ks, ti, seqLen).exc == None
    requires 0 < k < |rows|
    ensures var ss := WindowSamples(ChunksClamped(rows, WindowSize), ks, ti, seqLen).samples;
      && |ss| == |rows|
      && 0 < |ss[k].x| == seqLen
      && |ss[k].x[seqLen - 1]| == |ks|
      && forall a :: 0 <= a < |ks| ==> ss[k].x[seqLen - 1][a] == FillNull(Cell(rows[k - 1], ks[a]), Real(0.0))
  {
    var windows := ChunksClamped(rows, WindowSize);
    WindowSamplesAt(windows, ks, ti, seqLen, k);
    ChunksClampedWindows(rows, WindowSize, k);
    var x := WindowSamples(windows, ks, ti, seqLen).samples[k].x;
    PaddedFeaturesEnd(windows[k], ks, seqLen, x);
  }

  /** The padded features of a non-empty window end with the filled features of its last row. */
  lemma PaddedFeaturesEnd(w: seq<Row>, ks: seq<nat>, seqLen: int, x: seq<Row>)
    requires w != [] && PadToLength(Features(w, ks), seqLen, |ks|, Real(0.0)) == Ok(x)
    ensures 0 < |x| == seqLen && |x[seqLen - 1]| == |ks|
    ensures forall a :: 0 <= a < |ks| ==> x[seqLen - 1][a] == FillNull(Cell(w[|w| - 1], ks[a]), Real(0.0))
  {
    PadLastRow(Features(w, ks), seqLen, |ks|, Real(0.0));
  }

  /** Padding goes in front: the last row of a padded non-empty matrix is its own last row. */
  lemma PadLastRow<T>(x: seq<seq<T>>, m: int, width: nat, zero: T)
    requires x != [] && |x| <= m
    ensures PadToLength(x, m, width, zero).Ok?
    ensures PadToLength(x, m, width, zero).value[m - 1] == x[|x| - 1]
  {
    var p := PadToLength(x, m, width, zero).value;
    assert p[m - 1] == p[m - |x|..][|x| - 1];
  }

  /**
   * `_ingest_parquet` over `players`: per player, its rows sorted by season and gameweek
   * (KeyError when either column is missing), cut into windows of `WindowSize`, and each
   * window yielded padded. The windows are the intended ones, `ChunksClamped`.
   */
  function IngestPlayers(t: Table, ci: nat, players: seq<Value>, seqLen: int): Stream
    decreases |players|
  {
    if players == [] then Stream([], None)
    else
      match (IndexOf(t.columns, "season"), IndexOf(t.columns, "gameweek"))
      case (Some(si), Some(gi)) =>
        var windows := ChunksClamped(PlayerRows(t.rows, ci, si, gi, players[0]), WindowSize);
        var first := WindowSamples(windows, FeatureColumns(t.columns), IndexOf(t.columns, "target"), seqLen);
        if first.exc.Some? then first
        else
          var rest := IngestPlayers(t, ci, players[1..], seqLen);
          Stream(first.samples + rest.samples, rest.exc)
      case _ => Stream([], Some(KeyError))
  }

  /** `_ingest_parquet`: the players are the distinct codes in order of first appearance. */
  function Ingest(t: Table, seqLen: int): Stream {
    match IndexOf(t.columns, "code")
    case None => Stream([], Some(KeyError))
    case Some(ci) => IngestPlayers(t, ci, Unique(seq(|t.rows|, i requires 0 <= i < |t.rows| => Cell(t.rows[i], ci))), seqLen)
  }

  /**
   * A run that ends normally yields, for each player in turn, one sample per row of that
   * player: the first player's samples come first.
   */
  lemma IngestFirstPlayer(t: Table, ci: nat, players: seq<Value>, seqLen: int)
    requires players != [] && IngestPlayers(t, ci, players, seqLen).exc == None
    ensures var si := IndexOf(t.columns, "season");
      var gi := IndexOf(t.columns, "gameweek");
      && si.Some? && gi.Some?
      && var ps := PlayerRows(t.rows, ci, si.value, gi.value, players[0]);
         var first := WindowSamples(ChunksClamped(ps, WindowSize), FeatureColumns(t.columns), IndexOf(t.columns, "target"), seqLen);
         && first.exc == None
         && |first.samples| == |ps|
         && IngestPlayers(t, ci, players, seqLen).samples
            == first.samples + IngestPlayers(t, ci, players[1..], seqLen).samples
  {
    var si := IndexOf(t.columns, "season").value;
    var gi := IndexOf(t.columns, "gameweek").value;
    var ps := PlayerRows(t.rows, ci, si, gi, players[0]);
    if ps != [] {
      WindowSamplesAt(ChunksClamped(ps, WindowSize), FeatureColumns(t.columns), IndexOf(t.columns, "target"), seqLen, 0);
    }
  }

  /** The rows of the players `ps`, player by player, added up. */
  function PlayersRowCount(rows: seq<Row>, ci: nat, ps: seq<Value>): nat
    decreases |ps|
  {
    if ps == [] then 0 else |RowsOf(rows, ci, ps[0])| + PlayersRowCount(rows, ci, ps[1..])
  }

  /** How many times `v` occurs in `ps`. */
  function Occurrences(ps: seq<Value>, v: Value): nat
    decreases |ps|
  {
    if ps == [] then 0 else (if ps[0] == v then 1 else 0) + Occurrences(ps[1..], v)
  }

  lemma {:induction false} OccurrencesDistinct(ps: seq<Value>, v: Value)
    requires Distinct(ps)
    ensures Occurrences(ps, v) == if v in ps then 1 else 0
    decreases |ps|
  {
    if ps != [] {
      assert Distinct(ps[1..]) by {
        forall a, b | 0 <= a < b < |ps[1..]| ensures ps[1..][a] != ps[1..][b] {
          assert ps[1..][a] == ps[a + 1] && ps[1..][b] == ps[b + 1];
        }
      }
      OccurrencesDistinct(ps[1..], v);
      if ps[0] == v {
        assert v !in ps[1..] by {
          forall k | 0 <= k < |ps[1..]| ensures ps[1..][k] != v {
            assert ps[1..][k] == ps[k + 1];
          }
        }
      }
      assert v in ps <==> ps[0] == v || v in ps[1..];
    }
  }

  /** No rows, no rows of any player. */
  lemma {:induction false} PlayersRowCountEmpty(ci: nat, ps: seq<Value>)
    ensures PlayersRowCount([], ci, ps) == 0
    decreases |ps|
  {
    if ps != [] {
      PlayersRowCountEmpty(ci, ps[1..]);
    }
  }

  /** A further row adds one for each time its code is listed among `ps`. */
  lemma {:induction false} PlayersRowCountStep(rows: seq<Row>, r: Row, ci: nat, ps: seq<Value>)
    ensures PlayersRowCount(rows + [r], ci, ps) == PlayersRowCount(rows, ci, ps) + Occurrences(ps, Cell(r, ci))
    decreases |ps|
  {
    if ps != [] {
      var rows' := rows + [r];
      assert rows'[..|rows'| - 1] == rows;
      PlayersRowCountStep(rows, r, ci, ps[1..]);
    }
  }

  /** When `ps` lists every code once, its players have all the rows between them. */
  lemma {:induction false} PlayersRowCountAll(rows: seq<Row>, ci: nat, ps: seq<Value>)
    requires Distinct(ps) && forall i :: 0 <= i < |rows| ==> Cell(rows[i], ci) in ps
    ensures PlayersRowCount(rows, ci, ps) == |rows|
    decreases |rows|
  {
    if rows == [] {
      PlayersRowCountEmpty(ci, ps);
    } else {
      var n := |rows| - 1;
      assert rows == rows[..n] + [rows[n]];
      PlayersRowCountAll(rows[..n], ci, ps);
      PlayersRowCountStep(rows[..n], rows[n], ci, ps);
      OccurrencesDistinct(ps, Cell(rows[n], ci));
    }
  }

  /** A run over `players` that ends normally yields one sample per row of each player. */
  lemma {:induction false} IngestPlayersCount(t: Table, ci: nat, players: seq<Value>, seqLen: int)
    requires IngestPlayers(t, ci, players, seqLen).exc == None
    ensures |IngestPlayers(t, ci, players, seqLen).samples| == PlayersRowCount(t.rows, ci, players)
    decreases |players|
  {
    if players != [] {
      IngestFirstPlayer(t, ci, players, seqLen);
      var si := IndexOf(t.columns, "season").value;
      var gi := IndexOf(t.columns, "gameweek").value;
      PlayerRowsSorted(t.rows, ci, si, gi, players[0]);
      var ps := PlayerRows(t.rows, ci, si, gi, players[0]);
      assert |ps| == |multiset(ps)| == |RowsOf(t.rows, ci, players[0])|;
      assert IngestPlayers(t, ci, players[1..], seqLen).exc == None;
      IngestPlayersCount(t, ci, players[1..], seqLen);
    }
  }

  /**
   * `_ingest_parquet` needs a `code` column, and a run that ends normally yields exactly one
   * sample per data row: each player once, with one sample per row of that player.
   */
  lemma IngestCount(t: Table, seqLen: int)
    requires Ingest(t, seqLen).exc == None
    ensures IndexOf(t.columns, "code").Some?
    ensures |Ingest(t, seqLen).samples| == |t.rows|
  {
    var ci := IndexOf(t.columns, "code").value;
    var codes := seq(|t.rows|, i requires 0 <= i < |t.rows| => Cell(t.rows[i], ci));
    UniqueSpec(codes);
    forall i | 0 <= i < |t.rows| ensures Cell(t.rows[i], ci) in Unique(codes) {
      assert codes[i] == Cell(t.rows[i], ci);
    }
    IngestPlayersCount(t, ci, Unique(codes), seqLen);
    PlayersRowCountAll(t.rows, ci, Unique(codes));
  }
}
