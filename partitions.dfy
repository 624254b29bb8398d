/** `GetSectionedCells`: the three overlapping views of the board that the
    partition eliminators work on. A view lists board positions, so every
    view of a cell sees the same cell, as the shared pointers do. */
module Partitions {
  import opened Seqs
  import opened Sudoku

  /** A partition: the positions of its cells, in scan order. */
  type Part = seq<Loc>

  datatype Sections = Sections(rows: seq<Part>, cols: seq<Part>, groups: seq<Part>)

  datatype View = Rows | Cols | Groups

  /** Every position of the partition is a cell of the board. */
  predicate PartOn(b: Board, p: Part) {
    forall l :: l in p ==> OnBoard(b, l)
  }

  /** The positions of column `x` in rows `0 .. n-1`, top to bottom. */
  function Column(b: Board, x: nat, n: nat): seq<Loc>
    requires n <= |b|
  {
    if n == 0 then [] else Column(b, x, n - 1) + (if x < |b[n - 1]| then [Loc(x, n - 1)] else [])
  }

  /** A scan position: a cell of the board, or the end of it. */
  predicate ScanPos(b: Board, y: nat, x: nat) {
    (y < |b| && x <= |b[y]|) || (y == |b| && x == 0)
  }

  /** The positions before `(x, y)` in row-major order whose cell carries
      group tag `t`, in that order. */
  function Tagged(b: Board, t: int, y: nat, x: nat): seq<Loc>
    requires ScanPos(b, y, x)
    decreases y, x
  {
    if x > 0 then Tagged(b, t, y, x - 1) + (if b[y][x - 1].group == t then [Loc(x - 1, y)] else [])
    else if y == 0 then []
    else Tagged(b, t, y - 1, |b[y - 1]|)
  }

  /** The cells of group `t`, in row-major order. */
  function GroupCells(b: Board, t: int): seq<Loc> {
    Tagged(b, t, |b|, 0)
  }

  lemma {:induction false} ColumnFacts(b: Board, x: nat, n: nat)
    requires n <= |b|
    ensures forall l :: l in Column(b, x, n) <==> OnBoard(b, l) && l.x == x && l.y < n
    ensures Increasing(Column(b, x, n))
  {
    if n > 0 {
      ColumnFacts(b, x, n - 1);
    }
  }

  lemma {:induction false} TaggedFacts(b: Board, t: int, y: nat, x: nat)
    requires ScanPos(b, y, x)
    ensures forall l :: l in Tagged(b, t, y, x) <==>
      OnBoard(b, l) && Before(l, Loc(x, y)) && At(b, l).group == t
    ensures Increasing(Tagged(b, t, y, x))
    decreases y, x
  {
    if x > 0 {
      TaggedFacts(b, t, y, x - 1);
    } else if y > 0 {
      TaggedFacts(b, t, y - 1, |b[y - 1]|);
    }
  }

  /** What `GetSectionedCells` demands of the board: the slices it indexes
      have one entry per symbol, so the height, every width and every group
      tag must be below the number of symbols. */
  ghost predicate Fits(b: Board, n: nat) {
    |b| <= n &&
    (forall y :: 0 <= y < |b| ==> |b[y]| <= n) &&
    forall l :: OnBoard(b, l) ==> 0 <= At(b, l).group < n
  }

  /** The views built from a board: row `y` in increasing `x`, column `x` in
      increasing `y`, and group `i` in row-major order; views beyond the
      board are empty. */
  ghost predicate SectionsOf(b: Board, n: nat, s: Sections) {
    && |s.rows| == n && |s.cols| == n && |s.groups| == n
    && (forall y :: 0 <= y < n ==> s.rows[y] == if y < |b| then RowLocs(b, y) else [])
    && (forall x :: 0 <= x < n ==> s.cols[x] == Column(b, x, |b|))
    && (forall i :: 0 <= i < n ==> s.groups[i] == GroupCells(b, i))
  }

  /** The columns after the first `x` cells of row `y`: the columns left
      of `x` reach row `y`, the others stop above it. */
  ghost predicate ColsAt(b: Board, n: nat, y: nat, x: nat, cols: seq<Part>)
    requires y < |b|
  {
    |cols| == n && forall c :: 0 <= c < n ==> cols[c] == Column(b, c, if c < x then y + 1 else y)
  }

  /** The group map after the scan has reached `(x, y)`: each tag met so far
      and its cells. */
  ghost predicate GroupsAt(b: Board, y: nat, x: nat, groupMap: map<int, Part>)
    requires ScanPos(b, y, x)
  {
    && (forall t :: t in groupMap <==> Tagged(b, t, y, x) != [])
    && (forall t :: t in groupMap ==> groupMap[t] == Tagged(b, t, y, x))
  }

  /** Appends `l` to the list of tag `t`, starting one when `t` is new. */
  function FileLoc(groupMap: map<int, Part>, t: int, l: Loc): map<int, Part> {
    groupMap[t := (if t in groupMap then groupMap[t] else []) + [l]]
  }

  /** Files one cell under its group, starting the group's list when the
      tag is new. */
  method FileCell(groupMap0: map<int, Part>, t: int, l: Loc) returns (groupMap: map<int, Part>)
    ensures groupMap == FileLoc(groupMap0, t, l)
  {
    groupMap := groupMap0;
    if t !in groupMap {
      groupMap := groupMap[t := []];
    }
    groupMap := groupMap[t := groupMap[t] + [l]];
  }

  lemma RowLocsStep(b: Board, y: nat, x: nat)
    requires y < |b| && x < |b[y]|
    ensures RowLocs(b, y)[..x + 1] == RowLocs(b, y)[..x] + [Loc(x, y)]
  {
  }

  /** At the end of row `y` every column reaches it, and the scan position
      moves to the start of the next row. */
  lemma RowEnd(b: Board, n: nat, y: nat, cols: seq<Part>, groupMap: map<int, Part>)
    requires y < |b| && |b[y]| <= n
    requires ColsAt(b, n, y, |b[y]|, cols) && GroupsAt(b, y, |b[y]|, groupMap)
    ensures RowLocs(b, y)[..|b[y]|] == RowLocs(b, y)
    ensures ColsUpTo(b, n, y + 1, cols) && GroupsAt(b, y + 1, 0, groupMap)
  {
    forall c | |b[y]| <= c < n ensures Column(b, c, y + 1) == Column(b, c, y) {
    }
  }

  lemma ColsStep(b: Board, n: nat, y: nat, x: nat, cols: seq<Part>)
    requires y < |b| && x < |b[y]| <= n && ColsAt(b, n, y, x, cols)
    ensures ColsAt(b, n, y, x + 1, cols[x := cols[x] + [Loc(x, y)]])
  {
  }

  lemma GroupsStep(b: Board, y: nat, x: nat, groupMap: map<int, Part>)
    requires y < |b| && x < |b[y]| && GroupsAt(b, y, x, groupMap)
    ensures GroupsAt(b, y, x + 1, FileLoc(groupMap, b[y][x].group, Loc(x, y)))
  {
  }

  /** One row of the scan: lists row `y` and appends its cells to their
      columns and to their groups in the group map. */
  method SectionRow(b: Board, n: nat, y: nat, cols0: seq<Part>, groupMap0: map<int, Part>)
    returns (row: Part, cols: seq<Part>, groupMap: map<int, Part>)
    requires y < |b| && |b[y]| <= n
    requires ColsUpTo(b, n, y, cols0) && GroupsAt(b, y, 0, groupMap0)
    ensures row == RowLocs(b, y)
    ensures ColsUpTo(b, n, y + 1, cols) && GroupsAt(b, y + 1, 0, groupMap)
  {
    row, cols, groupMap := [], cols0, groupMap0;
    var x := 0;
    while x < |b[y]|
      invariant 0 <= x <= |b[y]|
      invariant row == RowLocs(b, y)[..x]
      invariant ColsAt(b, n, y, x, cols)
      invariant GroupsAt(b, y, x, groupMap)
    {
      RowLocsStep(b, y, x);
      ColsStep(b, n, y, x, cols);
      GroupsStep(b, y, x, groupMap);
      var l := Loc(x, y);
      row := row + [l];
      cols := cols[x := cols[x] + [l]];
      groupMap := FileCell(groupMap, b[y][x].group, l);
      x := x + 1;
    }
    RowEnd(b, n, y, cols, groupMap);
  }

  /** The columns down to row `y`. */
  ghost predicate ColsUpTo(b: Board, n: nat, y: nat, cols: seq<Part>)
    requires y <= |b|
  {
    |cols| == n && forall c :: 0 <= c < n ==> cols[c] == Column(b, c, y)
  }

  /** The rows above `y` listed, the others still empty. */
  ghost predicate RowsAt(b: Board, n: nat, y: nat, rows: seq<Part>)
    requires y <= |b|
  {
    |rows| == n && forall yy :: 0 <= yy < n ==> rows[yy] == if yy < y then RowLocs(b, yy) else []
  }

  /** The scan of `GetSectionedCells`: rows, columns and the group map. */
  method ScanRows(b: Board, n: nat) returns (rows: seq<Part>, cols: seq<Part>, groupMap: map<int, Part>)
    requires |b| <= n && forall y :: 0 <= y < |b| ==> |b[y]| <= n
    ensures |rows| == n && |cols| == n
    ensures forall y :: 0 <= y < n ==> rows[y] == if y < |b| then RowLocs(b, y) else []
    ensures forall c :: 0 <= c < n ==> cols[c] == Column(b, c, |b|)
    ensures forall t :: t in groupMap <==> GroupCells(b, t) != []
    ensures forall t :: t in groupMap ==> groupMap[t] == GroupCells(b, t)
  {
    rows := seq(n, _ => []);
    cols := seq(n, _ => []);
    groupMap := map[];
    var y := 0;
    while y < |b|
      invariant 0 <= y <= |b|
      invariant RowsAt(b, n, y, rows) && ColsUpTo(b, n, y, cols) && GroupsAt(b, y, 0, groupMap)
    {
      var row;
      row, cols, groupMap := SectionRow(b, n, y, cols, groupMap);
      rows := rows[y := row];
      y := y + 1;
    }
  }

  method GetSectionedCells(b: Board, n: nat) returns (s: Sections)
    requires Fits(b, n)
    ensures SectionsOf(b, n, s)
  {
    var rows, cols, groupMap := ScanRows(b, n);
    forall t | t in groupMap ensures 0 <= t < n {
      TaggedFacts(b, t, |b|, 0);
      assert GroupCells(b, t)[0] in GroupCells(b, t);
    }
    var groups := ReadGroups(n, groupMap);
    s := Sections(rows, cols, groups);
  }

  /** Reads the group map out into a slice indexed by tag. Go visits the
      map in no particular order; since each tag lands in its own slot the
      order does not matter, and the model visits the tags in increasing
      order. */
  method ReadGroups(n: nat, groupMap: map<int, Part>) returns (groups: seq<Part>)
    requires forall t :: t in groupMap ==> 0 <= t < n
    ensures |groups| == n
    ensures forall i :: 0 <= i < n ==> groups[i] == if i in groupMap then groupMap[i] else []
  {
    groups := seq(n, _ => []);
    var t := 0;
    while t < n
      invariant 0 <= t <= n && |groups| == n
      invariant forall i :: 0 <= i < n ==>
        groups[i] == if i in groupMap && i < t then groupMap[i] else []
    {
      if t in groupMap {
        groups := groups[t := groupMap[t]];
      }
      t := t + 1;
    }
  }

  /** Every view lists distinct board positions in scan order, and every
      board cell lies in exactly one row, one column and one group: the
      row of its `y`, the column of its `x` and the group of its tag. */
  lemma SectionsCover(b: Board, n: nat, s: Sections)
    requires Fits(b, n) && SectionsOf(b, n, s)
    ensures forall i :: 0 <= i < n ==>
      Increasing(s.rows[i]) && Increasing(s.cols[i]) && Increasing(s.groups[i])
    ensures forall i, l :: 0 <= i < n && l in s.rows[i] ==> OnBoard(b, l)
    ensures forall i, l :: 0 <= i < n && l in s.cols[i] ==> OnBoard(b, l)
    ensures forall i, l :: 0 <= i < n && l in s.groups[i] ==> OnBoard(b, l)
    ensures forall i, l :: 0 <= i < n && OnBoard(b, l) ==>
      && (l in s.rows[i] <==> i == l.y)
      && (l in s.cols[i] <==> i == l.x)
      && (l in s.groups[i] <==> i == At(b, l).group)
  {
    forall i | 0 <= i < n
      ensures Increasing(s.rows[i]) && Increasing(s.cols[i]) && Increasing(s.groups[i])
      ensures forall l :: l in s.rows[i] <==> OnBoard(b, l) && l.y == i
      ensures forall l :: l in s.cols[i] <==> OnBoard(b, l) && l.x == i
      ensures forall l :: l in s.groups[i] <==> OnBoard(b, l) && At(b, l).group == i
    {
      ColumnFacts(b, i, |b|);
      TaggedFacts(b, i, |b|, 0);
      RowFacts(b, n, s, i);
    }
  }

  /** Row `i` of the views holds exactly the cells whose `y` is `i`, left to
      right. */
  lemma RowFacts(b: Board, n: nat, s: Sections, i: nat)
    requires SectionsOf(b, n, s) && i < n
    ensures Increasing(s.rows[i])
    ensures forall l :: l in s.rows[i] <==> OnBoard(b, l) && l.y == i
  {
    if i < |b| {
      forall l | OnBoard(b, l) && l.y == i ensures l in s.rows[i] {
        assert RowLocs(b, i)[l.x] == l;
      }
    }
  }

  /** The views of a board, as `SectionsOf` describes them. */
  function Sectioned(b: Board, n: nat): (s: Sections)
    ensures SectionsOf(b, n, s)
  {
    Sections(
      seq(n, y requires 0 <= y => if y < |b| then RowLocs(b, y) else []),
      seq(n, x requires 0 <= x => Column(b, x, |b|)),
      seq(n, i requires 0 <= i => GroupCells(b, i)))
  }

  /** `SectionsOf` leaves no choice: the views are determined by the board. */
  lemma SectionsUnique(b: Board, n: nat, s: Sections)
    requires SectionsOf(b, n, s)
    ensures s == Sectioned(b, n)
  {
    var t := Sectioned(b, n);
    assert s.rows == t.rows && s.cols == t.cols && s.groups == t.groups;
  }

  /** The partitions of view `v`. */
  function Select(s: Sections, v: View): seq<Part> {
    match v
    case Rows => s.rows
    case Cols => s.cols
    case Groups => s.groups
  }

  /** Every partition of every view lies on the board. */
  lemma SectionsOn(b: Board, n: nat)
    requires Fits(b, n)
    ensures forall v, i :: 0 <= i < |Select(Sectioned(b, n), v)| ==> PartOn(b, Select(Sectioned(b, n), v)[i])
  {
    var s := Sectioned(b, n);
    SectionsCover(b, n, s);
    forall v, i | 0 <= i < |Select(s, v)| ensures PartOn(b, Select(s, v)[i]) {
      assert |Select(s, v)| == n;
    }
  }

  /** Deleting candidates keeps the board's shape, so partitions stay on it. */
  lemma ShrinksPartOn(b0: Board, b1: Board, p: Part)
    requires Shrinks(b0, b1) && PartOn(b0, p)
    ensures PartOn(b1, p)
  {
  }

  /** `b1` has `b0`'s shape and every cell keeps its group. */
  ghost predicate SameLayout(b0: Board, b1: Board) {
    SameShape(b0, b1) && forall l :: OnBoard(b0, l) ==> At(b1, l).group == At(b0, l).group
  }

  /** Whether a board fits the symbol count depends only on its layout. */
  lemma LayoutFits(b0: Board, b1: Board, n: nat)
    requires Fits(b0, n) && SameLayout(b0, b1)
    ensures Fits(b1, n)
  {
    forall l | OnBoard(b1, l) ensures 0 <= At(b1, l).group < n {
      assert OnBoard(b0, l);
    }
  }

  lemma {:induction false} ColumnSameLayout(b0: Board, b1: Board, x: nat, n: nat)
    requires SameLayout(b0, b1) && n <= |b0|
    ensures Column(b0, x, n) == Column(b1, x, n)
  {
    if n > 0 {
      ColumnSameLayout(b0, b1, x, n - 1);
    }
  }

  lemma {:induction false} TaggedSameLayout(b0: Board, b1: Board, t: int, y: nat, x: nat)
    requires SameLayout(b0, b1) && ScanPos(b0, y, x)
    ensures Tagged(b0, t, y, x) == Tagged(b1, t, y, x)
    decreases y, x
  {
    if x > 0 {
      TaggedSameLayout(b0, b1, t, y, x - 1);
      assert OnBoard(b0, Loc(x - 1, y));
    } else if y > 0 {
      TaggedSameLayout(b0, b1, t, y - 1, |b0[y - 1]|);
    }
  }

  /** The views depend only on the layout, not on what the cells hold. */
  lemma SectionsSameLayout(b0: Board, b1: Board, n: nat)
    requires SameLayout(b0, b1)
    ensures Sectioned(b0, n) == Sectioned(b1, n)
  {
    var s0, s1 := Sectioned(b0, n), Sectioned(b1, n);
    forall y | 0 <= y < n ensures s0.rows[y] == s1.rows[y] {
      if y < |b0| {
        assert RowLocs(b0, y) == RowLocs(b1, y);
      }
    }
    forall x | 0 <= x < n ensures s0.cols[x] == s1.cols[x] {
      ColumnSameLayout(b0, b1, x, |b0|);
    }
    forall i | 0 <= i < n ensures s0.groups[i] == s1.groups[i] {
      TaggedSameLayout(b0, b1, i, |b0|, 0);
    }
  }

  /** The partitions an eliminator visits, views in the order rows, columns,
      groups, each by ascending index. */
  function Views(s: Sections): seq<(View, seq<Part>)> {
    [(Rows, s.rows), (Cols, s.cols), (Groups, s.groups)]
  }
}
