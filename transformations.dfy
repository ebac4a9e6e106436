/** The table transforms: the gameweek diff of a cumulative column and the elements/teams join. */
module Transformations {
  import opened Exceptions
  import opened Json
  import opened Frames

  // ---------------------------------------------------------------------------------
  // calculate_diff
  // ---------------------------------------------------------------------------------

  /**
   * `series.iloc[1:] = series.iloc[1:].diff().fillna(series.iloc[1:])` on a copy: positions
   * 0 and 1 pass through; from position 2 on, the difference with the previous position, or
   * the value itself where that difference is null because either side is null.
   */
  function CalculateDiff(s: seq<Option<int>>): (r: seq<Option<int>>)
    ensures |r| == |s|
    ensures forall i :: 0 <= i < |s| && i < 2 ==> r[i] == s[i]
    ensures forall i :: 0 <= i < |s| ==> (r[i].None? <==> s[i].None?)
  {
    seq(|s|, i requires 0 <= i < |s| =>
      if i < 2 || s[i].None? || s[i - 1].None? then s[i] else Some(s[i].value - s[i - 1].value))
  }

  /** No value of the series is null. */
  ghost predicate Present(s: seq<Option<int>>) {
    forall i :: 0 <= i < |s| ==> s[i].Some?
  }

  function Values(s: seq<Option<int>>): (xs: seq<int>)
    requires Present(s)
    ensures |xs| == |s| && forall i :: 0 <= i < |s| ==> s[i] == Some(xs[i])
  {
    seq(|s|, i requires 0 <= i < |s| => s[i].value)
  }

  function Lift(xs: seq<int>): (s: seq<Option<int>>)
    ensures |s| == |xs| && Present(s) && forall i :: 0 <= i < |xs| ==> s[i] == Some(xs[i])
  {
    seq(|xs|, i requires 0 <= i < |xs| => Some(xs[i]))
  }

  function Sum(xs: seq<int>): int
    decreases |xs|
  {
    if xs == [] then 0 else Sum(xs[..|xs| - 1]) + xs[|xs| - 1]
  }

  /** Running totals from position 1: position 0 is kept, position i is xs[1] + ... + xs[i]. */
  function Cumulate(xs: seq<int>): (c: seq<int>)
    ensures |c| == |xs|
  {
    seq(|xs|, i requires 0 <= i < |xs| => if i == 0 then xs[0] else Sum(xs[1..i + 1]))
  }

  lemma SumSnoc(xs: seq<int>, i: nat)
    requires 1 <= i < |xs|
    ensures Sum(xs[1..i + 1]) == Sum(xs[1..i]) + xs[i]
  {
    assert xs[1..i + 1][..i - 1] == xs[1..i];
  }

  lemma {:induction false} RunningTotal(s: seq<Option<int>>, i: nat)
    requires Present(s) && 1 <= i < |s|
    ensures Sum(Values(CalculateDiff(s))[1..i + 1]) == s[i].value
    decreases i
  {
    var d := Values(CalculateDiff(s));
    SumSnoc(d, i);
    if i == 1 {
      assert d[1..1] == [];
    } else {
      RunningTotal(s, i - 1);
    }
  }

  /** The diff undoes cumulation: summing it from position 1 gives the series back. */
  lemma DiffThenCumulate(s: seq<Option<int>>)
    requires Present(s)
    ensures Cumulate(Values(CalculateDiff(s))) == Values(s)
  {
    var c := Cumulate(Values(CalculateDiff(s)));
    forall i | 1 <= i < |s| ensures c[i] == s[i].value {
      RunningTotal(s, i);
    }
  }

  /** And cumulation undoes the diff: the diff of running totals is the original column. */
  lemma CumulateThenDiff(xs: seq<int>)
    ensures CalculateDiff(Lift(Cumulate(xs))) == Lift(xs)
  {
    var c := Cumulate(xs);
    var r := CalculateDiff(Lift(c));
    forall i | 0 <= i < |xs| ensures r[i] == Some(xs[i]) {
      assert r[i] == if i < 2 then Some(c[i]) else Some(c[i] - c[i - 1]);
      if i == 1 {
        assert xs[1..2] == [xs[1]];
        assert xs[1..2][..0] == [];
        assert c[1] == Sum(xs[1..2]) == xs[1];
      } else if 2 <= i {
        assert Lift(c)[i] == Some(c[i]) && Lift(c)[i - 1] == Some(c[i - 1]);
        assert r[i] == Some(c[i] - c[i - 1]);
        SumSnoc(xs, i);
      }
    }
  }

  // ---------------------------------------------------------------------------------
  // join_elements_and_team
  // ---------------------------------------------------------------------------------

  function Nulls(n: nat): (r: seq<Value>)
    ensures |r| == n && forall i :: 0 <= i < n ==> r[i] == Null
  {
    seq(n, i => Null)
  }

  /** The row of a collapsed table whose key is `k`, if there is one. */
  function Lookup(rows: seq<seq<Value>>, k: Key): (r: Option<nat>)
    requires forall i :: 0 <= i < |rows| ==> |rows[i]| >= 2
    ensures r.Some? ==> r.value < |rows| && OutKey(rows[r.value]) == Some(k)
    ensures r.None? ==> forall i :: 0 <= i < |rows| ==> OutKey(rows[i]) != Some(k)
  {
    if rows == [] then None
    else if OutKey(rows[0]) == Some(k) then Some(0)
    else
      match Lookup(rows[1..], k)
      case None =>
        assert forall i :: 1 <= i < |rows| ==> rows[i] == rows[1..][i - 1];
        None
      case Some(j) => Some(j + 1)
  }

  /**
   * The team cells joined to an element row: the non-key cells of the team row keyed by the
   * element's (team_code, gameweek), or nulls when there is none.
   */
  function TeamCells(row: seq<Value>, tc: nat, teams: Table): (cells: seq<Value>)
    requires tc < |row| && 2 <= |row|
    requires Rectangular(teams) && 2 <= |teams.columns|
    ensures |cells| == |teams.columns| - 2
    ensures var k := KeyOf(row, tc, 1);
      if k.Some? && exists j :: 0 <= j < |teams.rows| && OutKey(teams.rows[j]) == k then
        exists j :: 0 <= j < |teams.rows| && OutKey(teams.rows[j]) == k && 2 <= |teams.rows[j]| && cells == teams.rows[j][2..]
      else
        cells == Nulls(|teams.columns| - 2)
  {
    match KeyOf(row, tc, 1)
    case None => Nulls(|teams.columns| - 2)
    case Some(k) =>
      match Lookup(teams.rows, k)
      case None => Nulls(|teams.columns| - 2)
      case Some(j) => teams.rows[j][2..]
  }

  /** The team's non-key column names, with `_team` added to those the elements also have. */
  function TeamColumns(left: seq<string>, right: seq<string>): (names: seq<string>)
    ensures |names| == |right|
  {
    seq(|right|, j requires 0 <= j < |right| => if right[j] in left then right[j] + "_team" else right[j])
  }

  /**
   * `join_elements_and_team`: both tables collapsed to one row per (code, gameweek), then
   * `elements.join(teams.set_index(["code", "gameweek"]), on=["team_code", "gameweek"],
   * rsuffix="_team")`, a left join.
   */
  function JoinElementsAndTeam(elements: Table, teams: Table): (r: Outcome<Table>)
    requires Rectangular(elements) && IntKeys(elements)
    requires Rectangular(teams) && IntKeys(teams)
    ensures r.Ok? ==> Rectangular(r.value)
  {
    match GroupByLast(elements)
    case Raise(x) => Raise(x)
    case Ok(e) =>
      match GroupByLast(teams)
      case Raise(x) => Raise(x)
      case Ok(t) =>
        match IndexOf(e.columns, "team_code")
        case None => Raise(KeyError)
        case Some(tc) =>
          Ok(Joined(e, t, tc))
  }

  /** The joined table of collapsed elements `e` and collapsed teams `t`, `tc` being `team_code`. */
  function Joined(e: Table, t: Table, tc: nat): (r: Table)
    requires Rectangular(e) && 2 <= |e.columns| && tc < |e.columns|
    requires Rectangular(t) && 2 <= |t.columns|
    ensures Rectangular(r) && |r.rows| == |e.rows|
    ensures forall i :: 0 <= i < |e.rows| ==>
      && |e.columns| <= |r.rows[i]|
      && r.rows[i][..|e.columns|] == e.rows[i] && r.rows[i][|e.columns|..] == TeamCells(e.rows[i], tc, t)
  {
    var r := Table(e.columns + TeamColumns(e.columns, t.columns[2..]),
                   seq(|e.rows|, i requires 0 <= i < |e.rows| => e.rows[i] + TeamCells(e.rows[i], tc, t)));
    assert forall i :: 0 <= i < |e.rows| ==> r.rows[i][..|e.columns|] == e.rows[i];
    r
  }

  /** The join raises KeyError exactly when a key column is missing from either table. */
  lemma JoinErrors(elements: Table, teams: Table)
    requires Rectangular(elements) && IntKeys(elements)
    requires Rectangular(teams) && IntKeys(teams)
    ensures var r := JoinElementsAndTeam(elements, teams);
      && (r.Raise? <==> "code" !in elements.columns || "gameweek" !in elements.columns
                        || "team_code" !in elements.columns
                        || "code" !in teams.columns || "gameweek" !in teams.columns)
      && (r.Raise? ==> r.exc == KeyError)
  {
    if GroupByLast(elements).Ok? {
      GroupByLastColumns(elements, "team_code");
    }
  }

  /**
   * The join has one row per distinct (code, gameweek) of the elements, in ascending key
   * order.
   */
  lemma JoinRows(elements: Table, teams: Table)
    requires Rectangular(elements) && IntKeys(elements)
    requires Rectangular(teams) && IntKeys(teams)
    requires JoinElementsAndTeam(elements, teams).Ok?
    ensures var r := JoinElementsAndTeam(elements, teams).value;
      var ci := IndexOf(elements.columns, "code").value;
      var gi := IndexOf(elements.columns, "gameweek").value;
      && KeyedAscending(r.rows)
      && forall k :: HasKey(elements.rows, |elements.columns|, ci, gi, k) <==>
                     exists i :: 0 <= i < |r.rows| && OutKey(r.rows[i]) == Some(k)
  {
    var e := GroupByLast(elements).value;
    var t := GroupByLast(teams).value;
    var tc := IndexOf(e.columns, "team_code").value;
    assert JoinElementsAndTeam(elements, teams) == Ok(Joined(e, t, tc));
    GroupByLastKeys(elements);
    JoinedKeys(e, t, tc);
  }

  /** The joined rows keep the keys of the element rows they extend. */
  lemma JoinedKeys(e: Table, t: Table, tc: nat)
    requires Rectangular(e) && 2 <= |e.columns| && tc < |e.columns|
    requires Rectangular(t) && 2 <= |t.columns|
    requires KeyedAscending(e.rows)
    ensures var r := Joined(e, t, tc);
      && KeyedAscending(r.rows)
      && forall i :: 0 <= i < |r.rows| ==> OutKey(r.rows[i]) == OutKey(e.rows[i])
  {
    var r := Joined(e, t, tc);
    forall i | 0 <= i < |r.rows| ensures |r.rows[i]| >= 2 && OutKey(r.rows[i]) == OutKey(e.rows[i]) {
      assert r.rows[i][..2] == r.rows[i][..|e.columns|][..2];
    }
  }

  /**
   * The columns of the join: the element columns, then the team's non-key columns, each
   * renamed with `_team` when the elements have a column of that name.
   */
  lemma JoinColumns(elements: Table, teams: Table)
    requires Rectangular(elements) && IntKeys(elements)
    requires Rectangular(teams) && IntKeys(teams)
    requires JoinElementsAndTeam(elements, teams).Ok?
    ensures GroupByLast(elements).Ok? && GroupByLast(teams).Ok?
    ensures var r := JoinElementsAndTeam(elements, teams).value;
      var e := GroupByLast(elements).value;
      var t := GroupByLast(teams).value;
      && |r.columns| == |elements.columns| + |teams.columns| - 2
      && r.columns[..|e.columns|] == e.columns
      && forall j :: |e.columns| <= j < |r.columns| ==>
           var name := t.columns[j - |e.columns| + 2];
           r.columns[j] == if name in e.columns then name + "_team" else name
  {
    var e := GroupByLast(elements).value;
    var t := GroupByLast(teams).value;
    var tc := IndexOf(e.columns, "team_code").value;
    assert JoinElementsAndTeam(elements, teams) == Ok(Joined(e, t, tc));
    JoinedColumns(e, t, tc);
  }

  lemma JoinedColumns(e: Table, t: Table, tc: nat)
    requires Rectangular(e) && 2 <= |e.columns| && tc < |e.columns|
    requires Rectangular(t) && 2 <= |t.columns|
    ensures var r := Joined(e, t, tc);
      && |r.columns| == |e.columns| + |t.columns| - 2
      && r.columns[..|e.columns|] == e.columns
      && forall j :: |e.columns| <= j < |r.columns| ==>
           var name := t.columns[j - |e.columns| + 2];
           r.columns[j] == if name in e.columns then name + "_team" else name
  {
  }

  /**
   * Row i of the join is row i of the collapsed elements followed by the non-key cells of
   * the collapsed team row keyed by its (team_code, gameweek), or by nulls when no team
   * row has that key or either cell is null.
   */
  lemma JoinRow(elements: Table, teams: Table, e: Table, t: Table, tc: nat, i: nat)
    requires Rectangular(elements) && IntKeys(elements)
    requires Rectangular(teams) && IntKeys(teams)
    requires GroupByLast(elements) == Ok(e) && GroupByLast(teams) == Ok(t)
    requires IndexOf(e.columns, "team_code") == Some(tc)
    requires i < |e.rows|
    ensures var r := JoinElementsAndTeam(elements, teams);
      && r.Ok? && i < |r.value.rows|
      && JoinedRowIs(e, t, tc, i, r.value.rows[i])
  {
    assert JoinElementsAndTeam(elements, teams) == Ok(Joined(e, t, tc));
    JoinedRow(e, t, tc, i);
  }

  /**
   * `row` is element row i followed by the non-key cells of the team row keyed by its
   * (team_code, gameweek), or by nulls when there is none.
   */
  ghost predicate JoinedRowIs(e: Table, t: Table, tc: nat, i: nat, row: seq<Value>)
    requires Rectangular(e) && tc < |e.columns| && 2 <= |e.columns| && i < |e.rows|
    requires Rectangular(t) && 2 <= |t.columns|
  {
    var w := |e.columns|;
    && w <= |row|
    && row[..w] == e.rows[i]
    && var k := KeyOf(e.rows[i], tc, 1);
       if k.Some? && exists j :: 0 <= j < |t.rows| && OutKey(t.rows[j]) == k then
         exists j :: 0 <= j < |t.rows| && OutKey(t.rows[j]) == k && row[w..] == t.rows[j][2..]
       else
         row[w..] == Nulls(|t.columns| - 2)
  }

  lemma JoinedRow(e: Table, t: Table, tc: nat, i: nat)
    requires Rectangular(e) && 2 <= |e.columns| && tc < |e.columns|
    requires Rectangular(t) && 2 <= |t.columns|
    requires i < |e.rows|
    ensures JoinedRowIs(e, t, tc, i, Joined(e, t, tc).rows[i])
  {
  }
}
