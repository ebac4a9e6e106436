/**
 * The slice of pandas that the table transforms use: a DataFrame as column names
 * plus positionally aligned rows, and `groupby(["code", "gameweek"], as_index=False).last()`.
 */
module Frames {
  import opened Exceptions
  import opened Json
  import opened Sorting

  /** A DataFrame: column names and rows of cells; `Null` stands for NaN/None. */
  datatype Table = Table(columns: seq<string>, rows: seq<seq<Value>>)

  ghost predicate Width(rows: seq<seq<Value>>, w: nat) {
    forall i :: 0 <= i < |rows| ==> |rows[i]| == w
  }

  /** Every row has one cell per column, as in any DataFrame. */
  ghost predicate Rectangular(t: Table) {
    Width(t.rows, |t.columns|)
  }

  /** The position of the first column called `name`; None when there is none (a KeyError). */
  function IndexOf(cols: seq<string>, name: string): (r: Option<nat>)
    ensures r.Some? ==> r.value < |cols| && cols[r.value] == name
    ensures r.Some? ==> forall j :: 0 <= j < r.value ==> cols[j] != name
    ensures r.None? <==> name !in cols
  {
    if cols == [] then None
    else if cols[0] == name then Some(0)
    else
      match IndexOf(cols[1..], name)
      case None => None
      case Some(i) => Some(i + 1)
  }

  /** Every cell of each column called `name` is an integer or null. */
  ghost predicate IntColumn(t: Table, name: string)
    requires Rectangular(t)
  {
    forall i, j :: 0 <= i < |t.rows| && 0 <= j < |t.columns| && t.columns[j] == name ==>
      t.rows[i][j].Int? || t.rows[i][j].Null?
  }

  /** The key columns that `groupby` sorts on hold integers (or nulls, which it drops). */
  ghost predicate IntKeys(t: Table)
    requires Rectangular(t)
  {
    IntColumn(t, "code") && IntColumn(t, "gameweek")
  }

  /** A group key: (code, gameweek). */
  datatype Key = Key(code: int, gameweek: int)

  /** The order `groupby` sorts keys in: by code, then by gameweek. */
  predicate KeyLe(a: Key, b: Key) {
    a.code < b.code || (a.code == b.code && a.gameweek <= b.gameweek)
  }

  predicate KeyLt(a: Key, b: Key) {
    KeyLe(a, b) && a != b
  }

  lemma KeyLeTotalPreorder()
    ensures TotalPreorder(KeyLe)
  {
  }

  /** The key of a row whose key cells are at `ci` and `gi`; None when either is null. */
  function KeyOf(row: seq<Value>, ci: nat, gi: nat): Option<Key>
    requires ci < |row| && gi < |row|
  {
    if row[ci].Int? && row[gi].Int? then Some(Key(row[ci].i, row[gi].i)) else None
  }

  /** Some row of `rows` has the key `k`. */
  ghost predicate HasKey(rows: seq<seq<Value>>, w: nat, ci: nat, gi: nat, k: Key)
    requires Width(rows, w) && ci < w && gi < w
  {
    exists m :: 0 <= m < |rows| && KeyOf(rows[m], ci, gi) == Some(k)
  }

  /** The keys of the rows that `groupby` keeps, in row order and with repeats. */
  function RowKeys(rows: seq<seq<Value>>, w: nat, ci: nat, gi: nat): (ks: seq<Key>)
    requires Width(rows, w) && ci < w && gi < w
    ensures forall k :: k in ks <==> HasKey(rows, w, ci, gi, k)
    decreases |rows|
  {
    if rows == [] then []
    else
      var rest := RowKeys(rows[1..], w, ci, gi);
      assert forall k :: HasKey(rows, w, ci, gi, k) <==>
                         KeyOf(rows[0], ci, gi) == Some(k) || HasKey(rows[1..], w, ci, gi, k) by {
        forall k | HasKey(rows, w, ci, gi, k) && KeyOf(rows[0], ci, gi) != Some(k)
          ensures HasKey(rows[1..], w, ci, gi, k)
        {
          var m :| 0 <= m < |rows| && KeyOf(rows[m], ci, gi) == Some(k);
          assert rows[1..][m - 1] == rows[m];
        }
        forall k | HasKey(rows[1..], w, ci, gi, k) ensures HasKey(rows, w, ci, gi, k) {
          var m :| 0 <= m < |rows[1..]| && KeyOf(rows[1..][m], ci, gi) == Some(k);
          assert rows[m + 1] == rows[1..][m];
        }
      }
      match KeyOf(rows[0], ci, gi)
      case Some(k) => [k] + rest
      case None => rest
  }

  ghost predicate Distinct<T>(s: seq<T>) {
    forall i, j :: 0 <= i < j < |s| ==> s[i] != s[j]
  }

  /** The elements of `s`, each once. */
  function Dedup<T(==,!new)>(s: seq<T>): (r: seq<T>)
    ensures forall x :: x in r <==> x in s
    ensures Distinct(r)
    decreases |s|
  {
    if s == [] then []
    else
      var rest := Dedup(s[1..]);
      assert forall x :: x in s <==> x == s[0] || x in s[1..];
      if s[0] in rest then rest else [s[0]] + rest
  }

  lemma {:induction false} DedupDistinct<T(!new)>(s: seq<T>)
    requires Distinct(s)
    ensures Dedup(s) == s
    decreases |s|
  {
    if s != [] {
      assert Distinct(s[1..]);
      DedupDistinct(s[1..]);
      assert s[0] !in s[1..];
      assert s == [s[0]] + s[1..];
    }
  }

  lemma {:induction false} DistinctCount<T>(s: seq<T>, x: T)
    requires Distinct(s)
    ensures multiset(s)[x] <= 1
    decreases |s|
  {
    if s != [] {
      assert s == [s[0]] + s[1..];
      assert multiset(s) == multiset{s[0]} + multiset(s[1..]);
      assert Distinct(s[1..]);
      DistinctCount(s[1..], x);
      if s[0] == x {
        assert x !in s[1..];
      }
    }
  }

  /** A permutation of a sequence without repeats has none either. */
  lemma DistinctPermutation<T>(a: seq<T>, b: seq<T>)
    requires multiset(a) == multiset(b) && Distinct(a)
    ensures Distinct(b)
  {
    forall i, j | 0 <= i < j < |b| ensures b[i] != b[j] {
      if b[i] == b[j] {
        assert b == b[..j] + b[j..];
        assert multiset(b) == multiset(b[..j]) + multiset(b[j..]);
        assert b[i] in b[..j];
        assert b[j] in b[j..];
        assert multiset(b)[b[i]] >= 2;
        DistinctCount(a, b[i]);
        assert false;
      }
    }
  }

  /** The groups `groupby` forms, in ascending key order, each once. */
  function SortedKeys(rows: seq<seq<Value>>, w: nat, ci: nat, gi: nat): (ks: seq<Key>)
    requires Width(rows, w) && ci < w && gi < w
    ensures forall k :: k in ks <==> HasKey(rows, w, ci, gi, k)
    ensures forall i, j :: 0 <= i < j < |ks| ==> KeyLt(ks[i], ks[j])
  {
    var ds := Dedup(RowKeys(rows, w, ci, gi));
    var ks := Sort(ds, KeyLe);
    KeyLeTotalPreorder();
    SortSorted(ds, KeyLe);
    DistinctPermutation(ds, ks);
    assert forall k :: k in ks <==> k in multiset(ds);
    ks
  }

  /** Row `m` belongs to the group of `k`. */
  ghost predicate InGroup(rows: seq<seq<Value>>, w: nat, ci: nat, gi: nat, k: Key, m: int)
    requires Width(rows, w) && ci < w && gi < w
  {
    0 <= m < |rows| && KeyOf(rows[m], ci, gi) == Some(k)
  }

  /**
   * `GroupBy.last` for the group of `k` and column `c`: `v` is the group's last non-null
   * cell in that column, or null when every cell of the group there is null.
   */
  ghost predicate LastNonNull(rows: seq<seq<Value>>, w: nat, ci: nat, gi: nat, k: Key, c: nat, v: Value)
    requires Width(rows, w) && ci < w && gi < w && c < w
  {
    if v == Null then
      forall m :: InGroup(rows, w, ci, gi, k, m) ==> rows[m][c] == Null
    else
      exists m :: InGroup(rows, w, ci, gi, k, m) && rows[m][c] == v &&
        forall n :: m < n && InGroup(rows, w, ci, gi, k, n) ==> rows[n][c] == Null
  }

  /** Scans the rows from the end for the first non-null cell of the group in column `c`. */
  function LastValue(rows: seq<seq<Value>>, w: nat, ci: nat, gi: nat, k: Key, c: nat): (v: Value)
    requires Width(rows, w) && ci < w && gi < w && c < w
    ensures LastNonNull(rows, w, ci, gi, k, c, v)
    decreases |rows|
  {
    if rows == [] then Null
    else
      var m := |rows| - 1;
      var init := rows[..m];
      assert forall n :: 0 <= n < m ==> init[n] == rows[n];
      if KeyOf(rows[m], ci, gi) == Some(k) && rows[m][c] != Null then
        assert InGroup(rows, w, ci, gi, k, m);
        rows[m][c]
      else
        var v := LastValue(init, w, ci, gi, k, c);
        LastNonNullExtend(rows, w, ci, gi, k, c, v);
        v
  }

  /** A last row outside the group, or null in column `c`, leaves the group's last value as it was. */
  lemma LastNonNullExtend(rows: seq<seq<Value>>, w: nat, ci: nat, gi: nat, k: Key, c: nat, v: Value)
    requires Width(rows, w) && ci < w && gi < w && c < w && rows != []
    requires Width(rows[..|rows| - 1], w)
    requires LastNonNull(rows[..|rows| - 1], w, ci, gi, k, c, v)
    requires KeyOf(rows[|rows| - 1], ci, gi) != Some(k) || rows[|rows| - 1][c] == Null
    ensures LastNonNull(rows, w, ci, gi, k, c, v)
  {
    var init := rows[..|rows| - 1];
    assert forall n :: InGroup(init, w, ci, gi, k, n) ==> InGroup(rows, w, ci, gi, k, n);
    if v != Null {
      var j :| InGroup(init, w, ci, gi, k, j) && init[j][c] == v &&
               forall n :: j < n && InGroup(init, w, ci, gi, k, n) ==> init[n][c] == Null;
      assert InGroup(rows, w, ci, gi, k, j) && rows[j][c] == v;
    }
  }

  /** The indices below `n` other than `ci` and `gi`, ascending. */
  function OtherColumns(n: nat, ci: nat, gi: nat): (cs: seq<nat>)
    ensures forall a :: 0 <= a < |cs| ==> cs[a] < n && cs[a] != ci && cs[a] != gi
    ensures forall j :: j in cs <==> 0 <= j < n && j != ci && j != gi
    ensures forall a, b :: 0 <= a < b < |cs| ==> cs[a] < cs[b]
    ensures |cs| == n - (if ci < n then 1 else 0) - (if gi < n && gi != ci then 1 else 0)
  {
    if n == 0 then []
    else
      var prev := OtherColumns(n - 1, ci, gi);
      prev + (if n - 1 == ci || n - 1 == gi then [] else [n - 1])
  }

  /** One output row: the key, then the last non-null value of each other column. */
  function GroupRow(t: Table, ci: nat, gi: nat, others: seq<nat>, k: Key): seq<Value>
    requires Rectangular(t) && ci < |t.columns| && gi < |t.columns|
    requires forall j :: 0 <= j < |others| ==> others[j] < |t.columns|
  {
    [Int(k.code), Int(k.gameweek)]
      + seq(|others|, j requires 0 <= j < |others| => LastValue(t.rows, |t.columns|, ci, gi, k, others[j]))
  }

  /**
   * `t.groupby(by=["code", "gameweek"], as_index=False).last()`: rows with a null key are
   * dropped, one row per key in ascending key order, the key columns first.
   */
  function GroupByLast(t: Table): (r: Outcome<Table>)
    requires Rectangular(t) && IntKeys(t)
    ensures r.Raise? <==> "code" !in t.columns || "gameweek" !in t.columns
    ensures r.Raise? ==> r.exc == KeyError
    ensures r.Ok? ==> Rectangular(r.value) && |r.value.columns| == |t.columns|
    ensures r.Ok? ==> r.value.columns[..2] == ["code", "gameweek"]
  {
    match (IndexOf(t.columns, "code"), IndexOf(t.columns, "gameweek"))
    case (Some(ci), Some(gi)) => Ok(Collapse(t, ci, gi))
    case _ => Raise(KeyError)
  }

  /** The collapse on the key columns at `ci` and `gi`: one row per group, in ascending key order. */
  function Collapse(t: Table, ci: nat, gi: nat): (r: Table)
    requires Rectangular(t) && ci < |t.columns| && gi < |t.columns| && ci != gi
    ensures Rectangular(r) && |r.columns| == |t.columns|
    ensures r.columns[..2] == [t.columns[ci], t.columns[gi]]
    ensures var ks := SortedKeys(t.rows, |t.columns|, ci, gi);
      && |r.rows| == |ks|
      && forall i :: 0 <= i < |ks| ==> OutKey(r.rows[i]) == Some(ks[i])
  {
    var others := OtherColumns(|t.columns|, ci, gi);
    var ks := SortedKeys(t.rows, |t.columns|, ci, gi);
    var cols := [t.columns[ci], t.columns[gi]] + seq(|others|, j requires 0 <= j < |others| => t.columns[others[j]]);
    Table(cols, seq(|ks|, i requires 0 <= i < |ks| => GroupRow(t, ci, gi, others, ks[i])))
  }

  /** Column j >= 2 of the collapse is the j-th non-key column of the input. */
  lemma CollapseColumn(t: Table, ci: nat, gi: nat, j: nat)
    requires Rectangular(t) && ci < |t.columns| && gi < |t.columns| && ci != gi
    requires 2 <= j < |t.columns|
    ensures var others := OtherColumns(|t.columns|, ci, gi);
      && others[j - 2] < |t.columns|
      && Collapse(t, ci, gi).columns[j] == t.columns[others[j - 2]]
  {
  }

  /** Cell j >= 2 of a collapsed row is the group's last value in the j-th non-key column. */
  lemma CollapseCell(t: Table, ci: nat, gi: nat, i: nat, j: nat)
    requires Rectangular(t) && ci < |t.columns| && gi < |t.columns| && ci != gi
    requires i < |Collapse(t, ci, gi).rows| && 2 <= j < |t.columns|
    ensures var r := Collapse(t, ci, gi);
      var others := OtherColumns(|t.columns|, ci, gi);
      var ks := SortedKeys(t.rows, |t.columns|, ci, gi);
      && r.columns[j] == t.columns[others[j - 2]]
      && r.rows[i][j] == LastValue(t.rows, |t.columns|, ci, gi, ks[i], others[j - 2])
  {
  }

  /** The key of an output row of `GroupByLast`. */
  function OutKey(row: seq<Value>): Option<Key>
    requires |row| >= 2
  {
    KeyOf(row, 0, 1)
  }

  /** Rows keyed by their first two cells, in strictly ascending key order. */
  ghost predicate KeyedAscending(rows: seq<seq<Value>>)
  {
    && (forall i :: 0 <= i < |rows| ==> |rows[i]| >= 2 && OutKey(rows[i]).Some?)
    && (forall i, j :: 0 <= i < j < |rows| ==> KeyLt(OutKey(rows[i]).value, OutKey(rows[j]).value))
  }

  /**
   * The collapse keeps one row per distinct non-null key of the input, no more and no
   * fewer, in ascending key order.
   */
  lemma GroupByLastKeys(t: Table)
    requires Rectangular(t) && IntKeys(t) && GroupByLast(t).Ok?
    ensures var r := GroupByLast(t).value;
      var ci := IndexOf(t.columns, "code").value;
      var gi := IndexOf(t.columns, "gameweek").value;
      && KeyedAscending(r.rows)
      && forall k :: HasKey(t.rows, |t.columns|, ci, gi, k) <==>
                     exists i :: 0 <= i < |r.rows| && OutKey(r.rows[i]) == Some(k)
  {
    var ci := IndexOf(t.columns, "code").value;
    var gi := IndexOf(t.columns, "gameweek").value;
    assert GroupByLast(t) == Ok(Collapse(t, ci, gi));
    CollapseKeys(t, ci, gi);
  }

  lemma CollapseKeys(t: Table, ci: nat, gi: nat)
    requires Rectangular(t) && ci < |t.columns| && gi < |t.columns| && ci != gi
    ensures var r := Collapse(t, ci, gi);
      && KeyedAscending(r.rows)
      && forall k :: HasKey(t.rows, |t.columns|, ci, gi, k) <==>
                     exists i :: 0 <= i < |r.rows| && OutKey(r.rows[i]) == Some(k)
  {
    CollapseAscending(t, ci, gi);
    forall k ensures HasKey(t.rows, |t.columns|, ci, gi, k) <==>
                     exists i :: 0 <= i < |Collapse(t, ci, gi).rows| && OutKey(Collapse(t, ci, gi).rows[i]) == Some(k)
    {
      CollapseKey(t, ci, gi, k);
    }
  }

  lemma CollapseAscending(t: Table, ci: nat, gi: nat)
    requires Rectangular(t) && ci < |t.columns| && gi < |t.columns| && ci != gi
    ensures KeyedAscending(Collapse(t, ci, gi).rows)
  {
    var r := Collapse(t, ci, gi);
    var ks := SortedKeys(t.rows, |t.columns|, ci, gi);
    assert forall i :: 0 <= i < |r.rows| ==> OutKey(r.rows[i]) == Some(ks[i]);
  }

  lemma CollapseKey(t: Table, ci: nat, gi: nat, k: Key)
    requires Rectangular(t) && ci < |t.columns| && gi < |t.columns| && ci != gi
    ensures HasKey(t.rows, |t.columns|, ci, gi, k) <==>
            exists i :: 0 <= i < |Collapse(t, ci, gi).rows| && OutKey(Collapse(t, ci, gi).rows[i]) == Some(k)
  {
    var r := Collapse(t, ci, gi);
    var ks := SortedKeys(t.rows, |t.columns|, ci, gi);
    if HasKey(t.rows, |t.columns|, ci, gi, k) {
      assert k in ks;
      var i :| 0 <= i < |ks| && ks[i] == k;
      assert OutKey(r.rows[i]) == Some(k);
    }
    if exists i :: 0 <= i < |r.rows| && OutKey(r.rows[i]) == Some(k) {
      var i :| 0 <= i < |r.rows| && OutKey(r.rows[i]) == Some(k);
      assert ks[i] == k && k in ks;
    }
  }

  /**
   * Each non-key cell of the collapse is the last non-null value of its group in the
   * column of the same name, or null when the group has none.
   */
  lemma GroupByLastCells(t: Table, i: nat, j: nat)
    requires Rectangular(t) && IntKeys(t) && GroupByLast(t).Ok?
    requires i < |GroupByLast(t).value.rows| && 2 <= j < |t.columns|
    ensures var r := GroupByLast(t).value;
      var ci := IndexOf(t.columns, "code").value;
      var gi := IndexOf(t.columns, "gameweek").value;
      var c := OtherColumns(|t.columns|, ci, gi)[j - 2];
      && c != ci && c != gi
      && r.columns[j] == t.columns[c]
      && OutKey(r.rows[i]).Some?
      && LastNonNull(t.rows, |t.columns|, ci, gi, OutKey(r.rows[i]).value, c, r.rows[i][j])
  {
    var ci := IndexOf(t.columns, "code").value;
    var gi := IndexOf(t.columns, "gameweek").value;
    assert GroupByLast(t) == Ok(Collapse(t, ci, gi));
    CollapseCell(t, ci, gi, i, j);
    var others := OtherColumns(|t.columns|, ci, gi);
    assert others[j - 2] in others;
  }

  lemma KeyedDistinct(rows: seq<seq<Value>>, a: nat, b: nat)
    requires KeyedAscending(rows) && a < |rows| && b < |rows| && a != b
    ensures OutKey(rows[a]) != OutKey(rows[b])
  {
    if a < b {
      assert KeyLt(OutKey(rows[a]).value, OutKey(rows[b]).value);
    } else {
      assert KeyLt(OutKey(rows[b]).value, OutKey(rows[a]).value);
    }
  }

  /** In a table with one row per key, each group is that row alone. */
  lemma LastValueOfKeyed(rows: seq<seq<Value>>, w: nat, i: nat, c: nat)
    requires Width(rows, w) && 2 <= w && c < w && KeyedAscending(rows) && i < |rows|
    ensures LastValue(rows, w, 0, 1, OutKey(rows[i]).value, c) == rows[i][c]
  {
    var k := OutKey(rows[i]).value;
    var v := LastValue(rows, w, 0, 1, k, c);
    forall n | 0 <= n < |rows| && n != i ensures !InGroup(rows, w, 0, 1, k, n) {
      KeyedDistinct(rows, n, i);
    }
    assert InGroup(rows, w, 0, 1, k, i);
  }

  /** The collapse keeps every column name, the key columns moved to the front. */
  lemma GroupByLastColumns(t: Table, name: string)
    requires Rectangular(t) && IntKeys(t) && GroupByLast(t).Ok?
    ensures name in GroupByLast(t).value.columns <==> name in t.columns
  {
    if name in t.columns {
      KeptColumn(t, name);
    }
    if name in GroupByLast(t).value.columns {
      SourceColumn(t, name);
    }
  }

  lemma KeptColumn(t: Table, name: string)
    requires Rectangular(t) && IntKeys(t) && GroupByLast(t).Ok? && name in t.columns
    ensures name in GroupByLast(t).value.columns
  {
    var ci := IndexOf(t.columns, "code").value;
    var gi := IndexOf(t.columns, "gameweek").value;
    var r := Collapse(t, ci, gi);
    assert GroupByLast(t) == Ok(r);
    var others := OtherColumns(|t.columns|, ci, gi);
    if name != "code" && name != "gameweek" {
      var c :| 0 <= c < |t.columns| && t.columns[c] == name;
      assert c in others;
      var j :| 0 <= j < |others| && others[j] == c;
      CollapseColumn(t, ci, gi, j + 2);
      assert r.columns[j + 2] == name;
    } else {
      assert name in r.columns[..2];
    }
  }

  lemma SourceColumn(t: Table, name: string)
    requires Rectangular(t) && IntKeys(t) && GroupByLast(t).Ok? && name in GroupByLast(t).value.columns
    ensures name in t.columns
  {
    var ci := IndexOf(t.columns, "code").value;
    var gi := IndexOf(t.columns, "gameweek").value;
    var r := Collapse(t, ci, gi);
    assert GroupByLast(t) == Ok(r);
    var j :| 0 <= j < |r.columns| && r.columns[j] == name;
    if 2 <= j {
      CollapseColumn(t, ci, gi, j);
    } else {
      assert r.columns[j] == r.columns[..2][j];
    }
  }

  /** The output of a collapse has integer key columns again. */
  lemma GroupByLastIntKeys(t: Table)
    requires Rectangular(t) && IntKeys(t) && GroupByLast(t).Ok?
    ensures IntKeys(GroupByLast(t).value)
  {
    var ci := IndexOf(t.columns, "code").value;
    var gi := IndexOf(t.columns, "gameweek").value;
    assert GroupByLast(t) == Ok(Collapse(t, ci, gi));
    CollapseIntColumn(t, ci, gi, "code");
    CollapseIntColumn(t, ci, gi, "gameweek");
  }

  /** A column of integers or nulls stays one through the collapse. */
  lemma CollapseIntColumn(t: Table, ci: nat, gi: nat, name: string)
    requires Rectangular(t) && ci < |t.columns| && gi < |t.columns| && ci != gi
    requires IntColumn(t, name)
    ensures IntColumn(Collapse(t, ci, gi), name)
  {
    var r := Collapse(t, ci, gi);
    forall i, j | 0 <= i < |r.rows| && 0 <= j < |r.columns| && r.columns[j] == name
      ensures r.rows[i][j].Int? || r.rows[i][j].Null?
    {
      CollapseIntCell(t, ci, gi, name, i, j);
    }
  }

  lemma CollapseIntCell(t: Table, ci: nat, gi: nat, name: string, i: nat, j: nat)
    requires Rectangular(t) && ci < |t.columns| && gi < |t.columns| && ci != gi
    requires IntColumn(t, name)
    requires i < |Collapse(t, ci, gi).rows| && j < |t.columns| && Collapse(t, ci, gi).columns[j] == name
    ensures Collapse(t, ci, gi).rows[i][j].Int? || Collapse(t, ci, gi).rows[i][j].Null?
  {
    var r := Collapse(t, ci, gi);
    var ks := SortedKeys(t.rows, |t.columns|, ci, gi);
    if 2 <= j {
      CollapseCell(t, ci, gi, i, j);
      var c := OtherColumns(|t.columns|, ci, gi)[j - 2];
      var v := r.rows[i][j];
      if v != Null {
        var m :| InGroup(t.rows, |t.columns|, ci, gi, ks[i], m) && t.rows[m][c] == v;
        assert t.columns[c] == name;
      }
    } else {
      assert OutKey(r.rows[i]) == Some(ks[i]);
    }
  }

  /** The groups of a table with one row per key are its rows' keys, in row order. */
  lemma SortedKeysOfKeyed(rows: seq<seq<Value>>, w: nat)
    requires Width(rows, w) && 2 <= w && KeyedAscending(rows)
    ensures SortedKeys(rows, w, 0, 1) == seq(|rows|, i requires 0 <= i < |rows| => OutKey(rows[i]).value)
  {
    var keys := seq(|rows|, i requires 0 <= i < |rows| => OutKey(rows[i]).value);
    RowKeysOfKeyed(rows, w);
    assert forall i, j :: 0 <= i < j < |keys| ==> KeyLt(keys[i], keys[j]);
    assert Distinct(keys);
    DedupDistinct(keys);
    assert Sorted(keys, KeyLe);
    SortOfSorted(keys, KeyLe);
  }

  lemma GroupRowOfKeyed(r: Table, others: seq<nat>, i: nat)
    requires Rectangular(r) && |r.columns| >= 2 && KeyedAscending(r.rows) && i < |r.rows|
    requires |others| == |r.columns| - 2 && forall j :: 0 <= j < |others| ==> others[j] == j + 2
    ensures GroupRow(r, 0, 1, others, OutKey(r.rows[i]).value) == r.rows[i]
  {
    var n := |r.columns|;
    var k := OutKey(r.rows[i]).value;
    var row := GroupRow(r, 0, 1, others, k);
    assert |row| == n == |r.rows[i]|;
    forall j | 0 <= j < n ensures row[j] == r.rows[i][j] {
      if 2 <= j {
        assert row[j] == LastValue(r.rows, n, 0, 1, k, j);
        LastValueOfKeyed(r.rows, n, i, j);
      }
    }
  }

  /** A table keyed by its first two columns, ascending, is its own collapse. */
  lemma GroupByLastOfKeyed(r: Table)
    requires Rectangular(r) && IntKeys(r) && |r.columns| >= 2
    requires r.columns[..2] == ["code", "gameweek"] && KeyedAscending(r.rows)
    ensures GroupByLast(r) == Ok(r)
  {
    var n := |r.columns|;
    assert r.columns[0] == "code" && r.columns[1] == "gameweek";
    assert IndexOf(r.columns, "code") == Some(0);
    assert IndexOf(r.columns, "gameweek") == Some(1);
    var others := OtherColumns(n, 0, 1);
    OthersAreTail(n, others);
    var ks := SortedKeys(r.rows, n, 0, 1);
    SortedKeysOfKeyed(r.rows, n);
    var cols := [r.columns[0], r.columns[1]] + seq(|others|, j requires 0 <= j < |others| => r.columns[others[j]]);
    assert cols == r.columns;
    forall i | 0 <= i < |ks| ensures GroupRow(r, 0, 1, others, ks[i]) == r.rows[i] {
      GroupRowOfKeyed(r, others, i);
    }
    var rows := seq(|ks|, i requires 0 <= i < |ks| => GroupRow(r, 0, 1, others, ks[i]));
    assert |ks| == |r.rows|;
    assert rows == r.rows;
    assert Collapse(r, 0, 1) == Table(cols, rows);
    assert GroupByLast(r) == Ok(Collapse(r, 0, 1));
  }

  /** Collapsing an already collapsed table changes nothing. */
  lemma GroupByLastIdempotent(t: Table)
    requires Rectangular(t) && IntKeys(t) && GroupByLast(t).Ok?
    ensures var r := GroupByLast(t).value;
      IntKeys(r) && GroupByLast(r) == Ok(r)
  {
    GroupByLastKeys(t);
    GroupByLastIntKeys(t);
    GroupByLastOfKeyed(GroupByLast(t).value);
  }

  lemma OthersAreTail(n: nat, others: seq<nat>)
    requires 2 <= n && others == OtherColumns(n, 0, 1)
    ensures forall j :: 0 <= j < |others| ==> others[j] == j + 2
  {
    forall j | 0 <= j < |others| ensures others[j] == j + 2 {
      OthersAt(n, others, j);
    }
  }

  lemma {:induction false} OthersAt(n: nat, others: seq<nat>, j: nat)
    requires 2 <= n && others == OtherColumns(n, 0, 1) && j < |others|
    ensures others[j] == j + 2
    decreases n
  {
    if n > 2 {
      var prev := OtherColumns(n - 1, 0, 1);
      assert others == prev + [n - 1];
      if j < |prev| {
        OthersAt(n - 1, prev, j);
      }
    }
  }

  /** The keys of a table with one row per key, in row order. */
  lemma {:induction false} RowKeysOfKeyed(rows: seq<seq<Value>>, w: nat)
    requires Width(rows, w) && 2 <= w && KeyedAscending(rows)
    ensures RowKeys(rows, w, 0, 1) == seq(|rows|, i requires 0 <= i < |rows| => OutKey(rows[i]).value)
    decreases |rows|
  {
    if rows != [] {
      assert KeyedAscending(rows[1..]) by {
        forall i, j | 0 <= i < j < |rows[1..]|
          ensures KeyLt(OutKey(rows[1..][i]).value, OutKey(rows[1..][j]).value)
        {
          assert rows[1..][i] == rows[i + 1] && rows[1..][j] == rows[j + 1];
        }
      }
      RowKeysOfKeyed(rows[1..], w);
    }
  }
}
