/** The board model of the hint engine: cells holding a value or a list of
    candidate symbols, each tagged with its group, and the `Game` that owns
    the board, the sorted symbol alphabet and the solver settings. */
module Sudoku {
  import opened Seqs

  datatype Option<T> = None | Some(value: T)

  /** A board position: `x` is the column, `y` the row. */
  datatype Loc = Loc(x: nat, y: nat)

  /** `recent` holds the candidates removed since the markers were last
      cleared; the engine shows them as the latest eliminations. */
  datatype Cell = Cell(value: string, candidates: seq<string>, recent: seq<string>)

  datatype GroupedCell = GroupedCell(group: int, cell: Cell)

  /** Rows of cells; row `y` holds the cells `Loc(x, y)`. */
  type Board = seq<seq<GroupedCell>>

  // ----- positions -------------------------------------------------------

  predicate OnBoard<T>(g: seq<seq<T>>, l: Loc) {
    l.y < |g| && l.x < |g[l.y]|
  }

  predicate SameShape<S, T>(a: seq<seq<S>>, b: seq<seq<T>>) {
    |a| == |b| && forall y :: 0 <= y < |a| ==> |a[y]| == |b[y]|
  }

  /** Strictly earlier in row-major order. */
  predicate Before(a: Loc, b: Loc) {
    a.y < b.y || (a.y == b.y && a.x < b.x)
  }

  function RowLocs<T>(g: seq<seq<T>>, y: nat): seq<Loc>
    requires y < |g|
  {
    seq(|g[y]|, x requires 0 <= x => Loc(x, y))
  }

  /** The positions of rows `0 .. n-1`, in row-major order. */
  function LocsUpTo<T>(g: seq<seq<T>>, n: nat): seq<Loc>
    requires n <= |g|
  {
    if n == 0 then [] else LocsUpTo(g, n - 1) + RowLocs(g, n - 1)
  }

  function AllLocs<T>(g: seq<seq<T>>): seq<Loc> {
    LocsUpTo(g, |g|)
  }

  /** The positions a row-major scan has passed when it stands at `(x, y)`. */
  function Prefix<T>(g: seq<seq<T>>, y: nat, x: nat): seq<Loc>
    requires y < |g| && x <= |g[y]|
  {
    LocsUpTo(g, y) + RowLocs(g, y)[..x]
  }

  predicate Increasing(ls: seq<Loc>) {
    forall i, j :: 0 <= i < j < |ls| ==> Before(ls[i], ls[j])
  }

  /** The rows up to `n` hold every position above row `n` once each, in
      row-major order. */
  lemma {:induction false} LocsUpToFacts<T>(g: seq<seq<T>>, n: nat)
    requires n <= |g|
    ensures forall l :: l in LocsUpTo(g, n) <==> OnBoard(g, l) && l.y < n
    ensures Increasing(LocsUpTo(g, n))
  {
    if n > 0 {
      LocsUpToFacts(g, n - 1);
      var a, r := LocsUpTo(g, n - 1), RowLocs(g, n - 1);
      assert forall l :: l in r <==> l.y == n - 1 && l.x < |g[n - 1]| by {
        forall l: Loc | l.y == n - 1 && l.x < |g[n - 1]| ensures l in r {
          assert r[l.x] == l;
        }
      }
      forall i, j | 0 <= i < j < |a + r| ensures Before((a + r)[i], (a + r)[j]) {
        if j < |a| {
        } else if i < |a| {
          assert (a + r)[i] in a && (a + r)[j] in r;
        } else {
          assert (a + r)[i] == r[i - |a|] && (a + r)[j] == r[j - |a|];
        }
      }
    }
  }

  lemma AllLocsFacts<T>(g: seq<seq<T>>)
    ensures forall l :: l in AllLocs(g) <==> OnBoard(g, l)
    ensures Increasing(AllLocs(g))
  {
    LocsUpToFacts(g, |g|);
  }

  lemma IncreasingNoDup(ls: seq<Loc>)
    requires Increasing(ls)
    ensures NoDup(ls)
  {
  }

  /** One step of a row-major scan appends the current position; finishing
      a row gives the positions of all rows so far. */
  lemma PrefixStep<T>(g: seq<seq<T>>, y: nat, x: nat)
    requires y < |g| && x <= |g[y]|
    ensures x < |g[y]| ==> Prefix(g, y, x + 1) == Prefix(g, y, x) + [Loc(x, y)]
    ensures x == |g[y]| ==> Prefix(g, y, x) == LocsUpTo(g, y + 1)
    ensures Prefix(g, y, 0) == LocsUpTo(g, y)
  {
    var r := RowLocs(g, y);
    if x < |g[y]| {
      assert r[..x + 1] == r[..x] + [Loc(x, y)];
    }
    assert r[..|g[y]|] == r;
  }

  lemma PrefixFacts<T>(g: seq<seq<T>>, y: nat, x: nat)
    requires y < |g| && x <= |g[y]|
    ensures forall l :: l in Prefix(g, y, x) <==> OnBoard(g, l) && Before(l, Loc(x, y))
  {
    LocsUpToFacts(g, y);
    var r := RowLocs(g, y)[..x];
    forall l: Loc | l.y == y && l.x < x ensures l in r {
      assert r[l.x] == l;
    }
  }

  // ----- cells -----------------------------------------------------------

  function At(b: Board, l: Loc): GroupedCell
    requires OnBoard(b, l)
  {
    b[l.y][l.x]
  }

  function CandidatesAt(b: Board, l: Loc): seq<string>
    requires OnBoard(b, l)
  {
    b[l.y][l.x].cell.candidates
  }

  function WithCell(b: Board, l: Loc, c: Cell): Board
    requires OnBoard(b, l)
  {
    b[l.y := b[l.y][l.x := b[l.y][l.x].(cell := c)]]
  }

  /** Replacing one cell's contents keeps the shape and every group, and
      changes no other cell. */
  lemma WithCellFacts(b: Board, l: Loc, c: Cell)
    requires OnBoard(b, l)
    ensures SameShape(b, WithCell(b, l, c))
    ensures forall k :: OnBoard(b, k) ==>
      At(WithCell(b, l, c), k) == if k == l then GroupedCell(At(b, l).group, c) else At(b, k)
  {
  }

  /** The symbols a removal request names: the empty string never counts. */
  function Requested(vs: seq<string>): set<string> {
    set v | v in vs && v != ""
  }

  /** A cell after `RemoveCandiates(vs)`: the requested candidates are gone,
      the rest keep their order, and what went is recorded as recent. */
  function Removal(c: Cell, vs: seq<string>): Cell {
    c.(candidates := Keep(c.candidates, Requested(vs)),
       recent := c.recent + Taken(c.candidates, Requested(vs)))
  }

  /** The list `RemoveCandiates(vs)` returns: the requested candidates that
      were present, in their order in the cell. */
  function RemovedBy(c: Cell, vs: seq<string>): seq<string> {
    Taken(c.candidates, Requested(vs))
  }

  lemma RemovalSpec(c: Cell, vs: seq<string>)
    ensures Removal(c, vs).value == c.value
    ensures IsSubseq(Removal(c, vs).candidates, c.candidates)
    ensures forall v :: v in Removal(c, vs).candidates <==> v in c.candidates && (v == "" || v !in vs)
    ensures forall v :: v in RemovedBy(c, vs) <==> v in c.candidates && v in vs && v != ""
    ensures |RemovedBy(c, vs)| + |Removal(c, vs).candidates| == |c.candidates|
    ensures RemovedBy(c, vs) == [] <==> Removal(c, vs).candidates == c.candidates
    ensures NoDup(c.candidates) ==> NoDup(Removal(c, vs).candidates) && NoDup(RemovedBy(c, vs))
  {
    FilterFacts(c.candidates, Requested(vs));
  }

  /** A cell after `Set(v)`: it holds `v` and no candidates. */
  function AfterSet(c: Cell, v: string): Cell {
    c.(value := v, candidates := [])
  }

  // ----- board-wide predicates -------------------------------------------

  /** What construction establishes and every later step keeps: candidate
      lists are duplicate-free and never hold "", and a filled cell has no
      candidates. */
  predicate CellOk(c: Cell) {
    NoDup(c.candidates) && "" !in c.candidates && (c.value != "" ==> c.candidates == [])
  }

  ghost predicate WellFormed(b: Board) {
    forall l :: OnBoard(b, l) ==> CellOk(At(b, l).cell)
  }

  /** `b1` is `b0` with, at most, candidates deleted: shape, groups and
      values are the same and every candidate list is an order-preserving
      sub-list of the old one. */
  ghost predicate Shrinks(b0: Board, b1: Board) {
    SameShape(b0, b1) &&
    forall l :: OnBoard(b0, l) ==>
      && At(b1, l).group == At(b0, l).group
      && At(b1, l).cell.value == At(b0, l).cell.value
      && IsSubseq(CandidatesAt(b1, l), CandidatesAt(b0, l))
  }

  lemma ShrinksRefl(b: Board)
    ensures Shrinks(b, b)
  {
    forall l | OnBoard(b, l) ensures IsSubseq(CandidatesAt(b, l), CandidatesAt(b, l)) {
      SubseqRefl(CandidatesAt(b, l));
    }
  }

  lemma ShrinksTrans(b0: Board, b1: Board, b2: Board)
    requires Shrinks(b0, b1) && Shrinks(b1, b2)
    ensures Shrinks(b0, b2)
  {
    forall l | OnBoard(b0, l) ensures IsSubseq(CandidatesAt(b2, l), CandidatesAt(b0, l)) {
      SubseqTrans(CandidatesAt(b2, l), CandidatesAt(b1, l), CandidatesAt(b0, l));
    }
  }

  /** Deleting candidates keeps a well-formed board well-formed. */
  lemma ShrinksWellFormed(b0: Board, b1: Board)
    requires WellFormed(b0) && Shrinks(b0, b1)
    ensures WellFormed(b1)
  {
    forall l | OnBoard(b1, l) ensures CellOk(At(b1, l).cell) {
      assert OnBoard(b0, l);
      SubseqFacts(CandidatesAt(b1, l), CandidatesAt(b0, l));
      SubseqNoDup(CandidatesAt(b1, l), CandidatesAt(b0, l));
      if At(b1, l).cell.value != "" {
        SubseqOfEmpty(CandidatesAt(b1, l));
      }
    }
  }

  /** Removing candidates from one cell only deletes candidates, keeps the
      board well-formed, and lowers the total by exactly what it removed. */
  lemma RemovalShrinks(b: Board, l: Loc, vs: seq<string>)
    requires OnBoard(b, l)
    ensures Shrinks(b, WithCell(b, l, Removal(At(b, l).cell, vs)))
    ensures WellFormed(b) ==> WellFormed(WithCell(b, l, Removal(At(b, l).cell, vs)))
    ensures Total(WithCell(b, l, Removal(At(b, l).cell, vs))) + |RemovedBy(At(b, l).cell, vs)| == Total(b)
  {
    var c := At(b, l).cell;
    var b1 := WithCell(b, l, Removal(c, vs));
    RemovalSpec(c, vs);
    WithCellFacts(b, l, Removal(c, vs));
    forall k | OnBoard(b, k) ensures IsSubseq(CandidatesAt(b1, k), CandidatesAt(b, k)) {
      if k != l {
        SubseqRefl(CandidatesAt(b, k));
      }
    }
    if WellFormed(b) {
      ShrinksWellFormed(b, b1);
    }
    TotalWithCell(b, l, Removal(c, vs));
  }

  // ----- total candidate count ------------------------------------------

  function RowTotal(r: seq<GroupedCell>): nat {
    if r == [] then 0 else RowTotal(r[..|r| - 1]) + |r[|r| - 1].cell.candidates|
  }

  /** The number of candidates on the board: the solver's progress measure. */
  function Total(b: Board): nat {
    if b == [] then 0 else Total(b[..|b| - 1]) + RowTotal(b[|b| - 1])
  }

  lemma {:induction false} RowTotalUpdate(r: seq<GroupedCell>, x: nat, gc: GroupedCell)
    requires x < |r|
    ensures RowTotal(r[x := gc]) + |r[x].cell.candidates| == RowTotal(r) + |gc.cell.candidates|
    decreases |r|
  {
    var n := |r| - 1;
    assert r[x := gc][..n] == if x == n then r[..n] else r[..n][x := gc];
    if x < n {
      RowTotalUpdate(r[..n], x, gc);
    }
  }

  lemma {:induction false} TotalUpdate(b: Board, y: nat, row: seq<GroupedCell>)
    requires y < |b|
    ensures Total(b[y := row]) + RowTotal(b[y]) == Total(b) + RowTotal(row)
    decreases |b|
  {
    var n := |b| - 1;
    assert b[y := row][..n] == if y == n then b[..n] else b[..n][y := row];
    if y < n {
      TotalUpdate(b[..n], y, row);
    }
  }

  lemma TotalWithCell(b: Board, l: Loc, c: Cell)
    requires OnBoard(b, l)
    ensures Total(WithCell(b, l, c)) + |CandidatesAt(b, l)| == Total(b) + |c.candidates|
  {
    var row := b[l.y][l.x := b[l.y][l.x].(cell := c)];
    RowTotalUpdate(b[l.y], l.x, b[l.y][l.x].(cell := c));
    TotalUpdate(b, l.y, row);
  }

  lemma {:induction false} RowTotalLe(r0: seq<GroupedCell>, r1: seq<GroupedCell>)
    requires |r0| == |r1|
    requires forall i :: 0 <= i < |r0| ==> |r1[i].cell.candidates| <= |r0[i].cell.candidates|
    ensures RowTotal(r1) <= RowTotal(r0)
    ensures RowTotal(r1) == RowTotal(r0) ==>
      forall i :: 0 <= i < |r0| ==> |r1[i].cell.candidates| == |r0[i].cell.candidates|
    decreases |r0|
  {
    if r0 != [] {
      var n := |r0| - 1;
      RowTotalLe(r0[..n], r1[..n]);
    }
  }

  lemma {:induction false} TotalLe(b0: Board, b1: Board)
    requires SameShape(b0, b1)
    requires forall y, x :: 0 <= y < |b0| && 0 <= x < |b0[y]| ==>
      |b1[y][x].cell.candidates| <= |b0[y][x].cell.candidates|
    ensures Total(b1) <= Total(b0)
    ensures Total(b1) == Total(b0) ==>
      forall y, x :: 0 <= y < |b0| && 0 <= x < |b0[y]| ==>
        |b1[y][x].cell.candidates| == |b0[y][x].cell.candidates|
    decreases |b0|
  {
    if b0 != [] {
      var n := |b0| - 1;
      TotalLe(b0[..n], b1[..n]);
      RowTotalLe(b0[n], b1[n]);
    }
  }

  /** Deleting candidates never raises the total, and leaves it unchanged
      exactly when no candidate list changed at all. */
  lemma TotalShrinks(b0: Board, b1: Board)
    requires Shrinks(b0, b1)
    ensures Total(b1) <= Total(b0)
    ensures Total(b1) == Total(b0) <==>
      forall l :: OnBoard(b0, l) ==> CandidatesAt(b1, l) == CandidatesAt(b0, l)
  {
    forall y, x | 0 <= y < |b0| && 0 <= x < |b0[y]|
      ensures |b1[y][x].cell.candidates| <= |b0[y][x].cell.candidates|
    {
      assert OnBoard(b0, Loc(x, y));
      SubseqFacts(CandidatesAt(b1, Loc(x, y)), CandidatesAt(b0, Loc(x, y)));
    }
    TotalLe(b0, b1);
    if Total(b1) == Total(b0) {
      forall l | OnBoard(b0, l) ensures CandidatesAt(b1, l) == CandidatesAt(b0, l) {
        SubseqSameLength(CandidatesAt(b1, l), CandidatesAt(b0, l));
      }
    } else {
      if forall l :: OnBoard(b0, l) ==> CandidatesAt(b1, l) == CandidatesAt(b0, l) {
        forall y, x | 0 <= y < |b1| && 0 <= x < |b1[y]|
          ensures |b0[y][x].cell.candidates| <= |b1[y][x].cell.candidates|
        {
          assert OnBoard(b0, Loc(x, y));
        }
        TotalLe(b1, b0);
      }
    }
  }

  // ----- construction ----------------------------------------------------

  /** The group of a position: the map's tag, or 0 when it has none. */
  function GroupOf(group: map<Loc, int>, l: Loc): int {
    if l in group then group[l] else 0
  }

  /** The non-empty values at the listed positions (positions off the grid
      contribute nothing). */
  function ValuesAt(cells: seq<seq<string>>, ls: seq<Loc>): set<string> {
    if ls == [] then {}
    else
      var l := ls[|ls| - 1];
      ValuesAt(cells, ls[..|ls| - 1]) + (if OnBoard(cells, l) && cells[l.y][l.x] != "" then {cells[l.y][l.x]} else {})
  }

  /** The group tags of the listed positions. */
  function TagsAt(group: map<Loc, int>, ls: seq<Loc>): set<int> {
    if ls == [] then {} else TagsAt(group, ls[..|ls| - 1]) + {GroupOf(group, ls[|ls| - 1])}
  }

  lemma {:induction false} ValuesAtFacts(cells: seq<seq<string>>, ls: seq<Loc>)
    requires forall l :: l in ls ==> OnBoard(cells, l)
    ensures forall v :: v in ValuesAt(cells, ls) <==>
      v != "" && exists l :: l in ls && OnBoard(cells, l) && cells[l.y][l.x] == v
  {
    if ls != [] {
      ValuesAtFacts(cells, ls[..|ls| - 1]);
      assert ls == ls[..|ls| - 1] + [ls[|ls| - 1]];
    }
  }

  lemma {:induction false} TagsAtFacts(group: map<Loc, int>, ls: seq<Loc>)
    ensures forall t :: t in TagsAt(group, ls) <==> exists l :: l in ls && GroupOf(group, l) == t
  {
    if ls != [] {
      TagsAtFacts(group, ls[..|ls| - 1]);
      assert ls == ls[..|ls| - 1] + [ls[|ls| - 1]];
    }
  }

  /** The distinct non-empty values of a grid. */
  function GridSymbols(cells: seq<seq<string>>): set<string> {
    ValuesAt(cells, AllLocs(cells))
  }

  /** The distinct group tags of a grid's positions. */
  function GridTags(cells: seq<seq<string>>, group: map<Loc, int>): set<int> {
    TagsAt(group, AllLocs(cells))
  }

  lemma GridSymbolsSpec(cells: seq<seq<string>>)
    ensures forall v :: v in GridSymbols(cells) <==>
      v != "" && exists l :: OnBoard(cells, l) && cells[l.y][l.x] == v
  {
    AllLocsFacts(cells);
    ValuesAtFacts(cells, AllLocs(cells));
  }

  lemma GridTagsSpec(cells: seq<seq<string>>, group: map<Loc, int>)
    ensures forall t :: t in GridTags(cells, group) <==>
      exists l :: OnBoard(cells, l) && GroupOf(group, l) == t
  {
    AllLocsFacts(cells);
    TagsAtFacts(group, AllLocs(cells));
  }

  /** The count check as written at sudoku.go:54: it compares the number of
      symbols with the number of ENTRIES of the location-to-group map. */
  predicate CountCheckAsWritten(nSymbols: nat, group: map<Loc, int>) {
    nSymbols == |group|
  }

  /** The count check as intended: one symbol per group of the grid. */
  predicate CountCheck(nSymbols: nat, cells: seq<seq<string>>, group: map<Loc, int>) {
    nSymbols == |GridTags(cells, group)|
  }

  /** `FillBasic` ignores the error of the `Fill` it calls; the empty cells
      are seeded only when that `Fill` passes both of its checks. */
  ghost predicate Seeded(cells: seq<seq<int>>, group: map<Loc, int>) {
    var strCells := BasicCells(cells);
    GridSymbols(strCells) != {} && CountCheck(|GridSymbols(strCells)|, strCells, group)
  }

  /** A 2x2 grid whose two rows are its two groups: a valid puzzle with two
      symbols. */
  const ExampleCells: seq<seq<string>> := [["1", "2"], ["2", "1"]]
  const ExampleGroups: map<Loc, int> := map[Loc(0, 0) := 0, Loc(1, 0) := 0, Loc(0, 1) := 1, Loc(1, 1) := 1]

  lemma ExampleSymbols()
    ensures GridSymbols(ExampleCells) == {"1", "2"}
  {
    GridSymbolsSpec(ExampleCells);
    assert ExampleCells[0][0] == "1" && ExampleCells[0][1] == "2";
    assert OnBoard(ExampleCells, Loc(0, 0)) && OnBoard(ExampleCells, Loc(1, 0));
  }

  lemma ExampleTags()
    ensures GridTags(ExampleCells, ExampleGroups) == {0, 1}
  {
    var cells, group := ExampleCells, ExampleGroups;
    GridTagsSpec(cells, group);
    assert OnBoard(cells, Loc(0, 0)) && GroupOf(group, Loc(0, 0)) == 0;
    assert OnBoard(cells, Loc(0, 1)) && GroupOf(group, Loc(0, 1)) == 1;
    forall l | OnBoard(cells, l) ensures GroupOf(group, l) in {0, 1} {
      assert l == Loc(0, 0) || l == Loc(1, 0) || l == Loc(0, 1) || l == Loc(1, 1);
    }
    forall t ensures t in GridTags(cells, group) <==> t in {0, 1} {
    }
  }

  /** On that grid the intended check accepts and the check as written
      rejects, since the map has four entries. */
  lemma CountCheckCounterexample()
    ensures |GridSymbols(ExampleCells)| == 2
    ensures CountCheck(|GridSymbols(ExampleCells)|, ExampleCells, ExampleGroups)
    ensures !CountCheckAsWritten(|GridSymbols(ExampleCells)|, ExampleGroups)
  {
    ExampleSymbols();
    ExampleTags();
    assert ExampleGroups.Keys == {Loc(0, 0), Loc(1, 0), Loc(0, 1), Loc(1, 1)};
  }

  function DigitChar(d: nat): char
    requires d < 10
  {
    (d + '0' as int) as char
  }

  function NatToDecimal(n: nat): (s: string)
    ensures s != [] && forall i :: 0 <= i < |s| ==> '0' <= s[i] <= '9'
  {
    if n < 10 then [DigitChar(n)] else NatToDecimal(n / 10) + [DigitChar(n % 10)]
  }

  /** `strconv.Itoa`: decimal digits, with a leading '-' for negatives. */
  function Itoa(v: int): (s: string)
    ensures 0 <= v < 10 ==> s == [DigitChar(v)]
    ensures s != "" && (v < 0 <==> s[0] == '-')
  {
    if v < 0 then "-" + NatToDecimal(-v) else NatToDecimal(v)
  }

  /** The symbol `FillBasic` writes for a number: 0 is an empty cell. */
  function BasicSymbol(v: int): string {
    if v == 0 then "" else Itoa(v)
  }

  function BasicCells(cells: seq<seq<int>>): (r: seq<seq<string>>)
    ensures SameShape(cells, r)
  {
    seq(|cells|, y requires 0 <= y < |cells| =>
      seq(|cells[y]|, x requires 0 <= x < |cells[y]| => BasicSymbol(cells[y][x])))
  }

  /** One row of `FillBasic`: the symbols of the row, or the column of its
      first value outside 0..9 (-1 when there is none). */
  method BasicRow(r: seq<int>) returns (row: seq<string>, bad: int)
    ensures bad == -1 ==> |row| == |r| && forall x :: 0 <= x < |r| ==> Accepted(r[x]) && row[x] == BasicSymbol(r[x])
    ensures bad != -1 ==> 0 <= bad < |r| && !Accepted(r[bad]) && forall x :: 0 <= x < bad ==> Accepted(r[x])
  {
    row := seq(|r|, _ => "");
    var x := 0;
    while x < |r|
      invariant 0 <= x <= |r| && |row| == |r|
      invariant forall xx :: 0 <= xx < x ==> Accepted(r[xx]) && row[xx] == BasicSymbol(r[xx])
      invariant forall xx :: x <= xx < |row| ==> row[xx] == ""
    {
      var v := r[x];
      if v == 0 {
        x := x + 1;
        continue;
      }
      if v < 0 || v > 9 {
        return row, x;
      }
      row := row[x := Itoa(v)];
      x := x + 1;
    }
    return row, -1;
  }

  /** The conversion loop of `FillBasic`: the grid's symbols, or the first
      cell, in row-major order, whose value is outside 0..9. */
  method BasicGrid(cells: seq<seq<int>>) returns (strCells: seq<seq<string>>, bad: Option<Loc>)
    ensures bad.None? <==> forall l :: OnBoard(cells, l) ==> Accepted(cells[l.y][l.x])
    ensures bad.None? ==> strCells == BasicCells(cells)
    ensures bad.Some? ==>
      && OnBoard(cells, bad.value) && !Accepted(cells[bad.value.y][bad.value.x])
      && forall l :: OnBoard(cells, l) && Before(l, bad.value) ==> Accepted(cells[l.y][l.x])
  {
    strCells := [];
    var y := 0;
    while y < |cells|
      invariant 0 <= y <= |cells| && |strCells| == y
      invariant forall yy :: 0 <= yy < y ==> strCells[yy] == BasicCells(cells)[yy]
      invariant forall l :: OnBoard(cells, l) && l.y < y ==> Accepted(cells[l.y][l.x])
    {
      var row, x := BasicRow(cells[y]);
      if x != -1 {
        return strCells, Some(Loc(x, y));
      }
      strCells := strCells + [row];
      y := y + 1;
    }
    return strCells, None;
  }

  /** The range check as written at sudoku.go:79: only values above 9 are
      refused, so a negative number passes. */
  predicate AcceptedAsWritten(v: int) {
    v <= 9
  }

  /** The range the error message states: 0 (empty) or 1 to 9. */
  predicate Accepted(v: int) {
    0 <= v <= 9
  }

  /** The check as written lets -1 through, and it becomes the symbol "-1",
      which is not one of the digits 1 to 9. */
  lemma RangeCheckCounterexample()
    ensures AcceptedAsWritten(-1) && !Accepted(-1)
    ensures BasicSymbol(-1) == "-1"
    ensures forall d :: 1 <= d <= 9 ==> BasicSymbol(-1) != BasicSymbol(d)
  {
    assert NatToDecimal(1) == "1";
  }

  /** Every accepted non-zero value becomes a single digit '1' to '9'. */
  lemma AcceptedSymbols(v: int)
    requires Accepted(v)
    ensures v == 0 <==> BasicSymbol(v) == ""
    ensures v != 0 ==> BasicSymbol(v) == [DigitChar(v)] && '1' <= BasicSymbol(v)[0] <= '9'
  {
  }

  /** Clearing every cell's recent-removal markers. */
  function ClearRecent(b: Board): (r: Board)
    ensures SameShape(b, r)
  {
    seq(|b|, y requires 0 <= y < |b| =>
      seq(|b[y]|, x requires 0 <= x < |b[y]| => b[y][x].(cell := b[y][x].cell.(recent := []))))
  }

  datatype FillError =
    | NoSymbols
    | SymbolGroupMismatch(symbols: nat, groups: nat)
    | InvalidValue(x: nat, y: nat, v: int)

  /** The solver settings the engine reads. */
  datatype Config = Config(
    runSimpleFirst: bool,
    runSimpleAfter: bool,
    randomEliminators: bool,
    hideSimple: bool,
    autoSolve: bool,
    runOnce: bool)

  /** The board `Fill` lays out: each cell holds its grid value, its group
      from the map (0 when absent), no recent removals, and, when it is
      empty, the candidates `seeds`. */
  ghost predicate Laid(b: Board, cells: seq<seq<string>>, group: map<Loc, int>, seeds: seq<string>) {
    SameShape(b, cells) &&
    forall l :: OnBoard(cells, l) ==>
      At(b, l) == GroupedCell(GroupOf(group, l), Cell(cells[l.y][l.x], if cells[l.y][l.x] == "" then seeds else [], []))
  }

  /** What one step of the first pass of `Fill` adds to what it has seen. */
  lemma GridScanStep(cells: seq<seq<string>>, group: map<Loc, int>, y: nat, x: nat)
    requires y < |cells| && x < |cells[y]|
    ensures ValuesAt(cells, Prefix(cells, y, x + 1)) ==
      ValuesAt(cells, Prefix(cells, y, x)) + (if cells[y][x] != "" then {cells[y][x]} else {})
    ensures TagsAt(group, Prefix(cells, y, x + 1)) ==
      TagsAt(group, Prefix(cells, y, x)) + {GroupOf(group, Loc(x, y))}
  {
    PrefixStep(cells, y, x);
    PrefixFacts(cells, y, x + 1);
    assert (Prefix(cells, y, x) + [Loc(x, y)])[..|Prefix(cells, y, x)|] == Prefix(cells, y, x);
  }

  /** A board laid out by `Fill` is well-formed before seeding, and stays so
      once its empty cells receive a duplicate-free alphabet without "". */
  lemma SeedWellFormed(b: Board, cells: seq<seq<string>>, group: map<Loc, int>, r: Board, symbols: seq<string>)
    requires Laid(b, cells, group, [])
    requires SameShape(r, b)
    requires forall l :: OnBoard(b, l) ==>
      At(r, l) == if At(b, l).cell.value == ""
                  then At(b, l).(cell := At(b, l).cell.(candidates := symbols))
                  else At(b, l)
    requires NoDup(symbols) && "" !in symbols
    ensures WellFormed(b) && WellFormed(r) && Laid(r, cells, group, symbols)
  {
    forall l | OnBoard(b, l) ensures CellOk(At(b, l).cell) && CellOk(At(r, l).cell) {
      assert OnBoard(cells, l);
    }
  }

  /** After `x` cells of row `y`: the row so far, and the values and tags
      of every position scanned. */
  ghost predicate RowBuilt(cells: seq<seq<string>>, group: map<Loc, int>, y: nat, x: nat,
                           row: seq<GroupedCell>, syms: set<string>, tags: set<int>)
    requires y < |cells| && x <= |cells[y]|
  {
    && |row| == x
    && (forall xx :: 0 <= xx < x ==> row[xx] == GroupedCell(GroupOf(group, Loc(xx, y)), Cell(cells[y][xx], [], [])))
    && syms == ValuesAt(cells, Prefix(cells, y, x))
    && tags == TagsAt(group, Prefix(cells, y, x))
  }

  lemma RowBuiltStep(cells: seq<seq<string>>, group: map<Loc, int>, y: nat, x: nat,
                     row: seq<GroupedCell>, syms: set<string>, tags: set<int>)
    requires y < |cells| && x < |cells[y]| && RowBuilt(cells, group, y, x, row, syms, tags)
    ensures RowBuilt(cells, group, y, x + 1,
      row + [GroupedCell(GroupOf(group, Loc(x, y)), Cell(cells[y][x], [], []))],
      if cells[y][x] != "" then syms + {cells[y][x]} else syms,
      tags + {GroupOf(group, Loc(x, y))})
  {
    GridScanStep(cells, group, y, x);
  }

  /** One row of the first pass of `Fill`: lays out row `y` and adds its
      values and group tags to those seen in the rows above. */
  method BuildRow(cells: seq<seq<string>>, group: map<Loc, int>, y: nat, syms0: set<string>, tags0: set<int>)
    returns (row: seq<GroupedCell>, syms: set<string>, tags: set<int>)
    requires y < |cells|
    requires syms0 == ValuesAt(cells, LocsUpTo(cells, y)) && tags0 == TagsAt(group, LocsUpTo(cells, y))
    ensures |row| == |cells[y]|
    ensures forall x :: 0 <= x < |row| ==>
      row[x] == GroupedCell(GroupOf(group, Loc(x, y)), Cell(cells[y][x], [], []))
    ensures syms == ValuesAt(cells, LocsUpTo(cells, y + 1)) && tags == TagsAt(group, LocsUpTo(cells, y + 1))
  {
    row, syms, tags := [], syms0, tags0;
    var x := 0;
    PrefixStep(cells, y, 0);
    while x < |cells[y]|
      invariant 0 <= x <= |cells[y]|
      invariant RowBuilt(cells, group, y, x, row, syms, tags)
    {
      RowBuiltStep(cells, group, y, x, row, syms, tags);
      var v := cells[y][x];
      if v != "" {
        syms := syms + {v};
      }
      tags := tags + {GroupOf(group, Loc(x, y))};
      row := row + [GroupedCell(GroupOf(group, Loc(x, y)), Cell(v, [], []))];
      x := x + 1;
    }
    PrefixStep(cells, y, x);
  }

  /** After `y` rows of the first pass of `Fill`: those rows laid out, and
      the values and tags of every position in them. */
  ghost predicate GridBuilt(cells: seq<seq<string>>, group: map<Loc, int>, y: nat,
                            b: Board, syms: set<string>, tags: set<int>)
    requires y <= |cells|
  {
    && |b| == y
    && (forall yy :: 0 <= yy < y ==> |b[yy]| == |cells[yy]|)
    && (forall l :: OnBoard(cells, l) && l.y < y ==>
          b[l.y][l.x] == GroupedCell(GroupOf(group, l), Cell(cells[l.y][l.x], [], [])))
    && syms == ValuesAt(cells, LocsUpTo(cells, y))
    && tags == TagsAt(group, LocsUpTo(cells, y))
  }

  lemma GridBuiltStep(cells: seq<seq<string>>, group: map<Loc, int>, y: nat,
                      b: Board, row: seq<GroupedCell>, syms: set<string>, tags: set<int>)
    requires y < |cells| && GridBuilt(cells, group, y, b, ValuesAt(cells, LocsUpTo(cells, y)), TagsAt(group, LocsUpTo(cells, y)))
    requires |row| == |cells[y]|
    requires forall x :: 0 <= x < |row| ==> row[x] == GroupedCell(GroupOf(group, Loc(x, y)), Cell(cells[y][x], [], []))
    requires syms == ValuesAt(cells, LocsUpTo(cells, y + 1)) && tags == TagsAt(group, LocsUpTo(cells, y + 1))
    ensures GridBuilt(cells, group, y + 1, b + [row], syms, tags)
  {
    var b1 := b + [row];
    forall l | OnBoard(cells, l) && l.y < y + 1
      ensures b1[l.y][l.x] == GroupedCell(GroupOf(group, l), Cell(cells[l.y][l.x], [], []))
    {
      if l.y == y {
        assert b1[l.y] == row && l == Loc(l.x, y);
      } else {
        assert b1[l.y] == b[l.y];
      }
    }
  }

  lemma GridBuiltEnd(cells: seq<seq<string>>, group: map<Loc, int>, b: Board, syms: set<string>, tags: set<int>)
    requires GridBuilt(cells, group, |cells|, b, syms, tags)
    ensures Laid(b, cells, group, [])
    ensures syms == GridSymbols(cells) && tags == GridTags(cells, group)
  {
    forall l | OnBoard(cells, l)
      ensures At(b, l) == GroupedCell(GroupOf(group, l), Cell(cells[l.y][l.x], if cells[l.y][l.x] == "" then [] else [], []))
    {
      assert b[l.y][l.x] == GroupedCell(GroupOf(group, l), Cell(cells[l.y][l.x], [], []));
    }
  }

  /** The first pass of `Fill`: lays out the board row by row and collects
      the distinct non-empty values and the group tags it meets. */
  method BuildGrid(cells: seq<seq<string>>, group: map<Loc, int>)
    returns (b: Board, syms: set<string>, tags: set<int>)
    ensures Laid(b, cells, group, [])
    ensures syms == GridSymbols(cells) && tags == GridTags(cells, group)
  {
    syms, tags, b := {}, {}, [];
    var y := 0;
    while y < |cells|
      invariant 0 <= y <= |cells|
      invariant GridBuilt(cells, group, y, b, syms, tags)
    {
      var row, syms1, tags1 := BuildRow(cells, group, y, syms, tags);
      GridBuiltStep(cells, group, y, b, row, syms1, tags1);
      b, syms, tags := b + [row], syms1, tags1;
      y := y + 1;
    }
    GridBuiltEnd(cells, group, b, syms, tags);
  }

  /** The success path of `Fill`: the alphabet sorted, and every empty cell
      given it as its candidates. */
  method SeedBoard(cells: seq<seq<string>>, group: map<Loc, int>, b: Board, list: seq<string>)
    returns (r: Board, sorted: seq<string>)
    requires Laid(b, cells, group, [])
    requires NoDup(list) && forall v :: v in list <==> v in GridSymbols(cells)
    ensures Laid(r, cells, group, sorted) && WellFormed(r)
    ensures NoDup(sorted) && SortedBy(sorted, StrLe)
    ensures forall v :: v in sorted <==> v in GridSymbols(cells)
  {
    GridSymbolsSpec(cells);
    SortAlphabet(list);
    sorted := InsertionSort(list, StrLe);
    r := SeedCandidates(b, sorted);
    SeedWellFormed(b, cells, group, r, sorted);
  }

  /** Sorting a duplicate-free alphabet keeps its members and leaves it
      duplicate-free. */
  lemma SortAlphabet(list: seq<string>)
    requires NoDup(list)
    ensures SortedBy(InsertionSort(list, StrLe), StrLe)
    ensures NoDup(InsertionSort(list, StrLe))
    ensures forall v :: v in InsertionSort(list, StrLe) <==> v in list
  {
    var sorted := InsertionSort(list, StrLe);
    StrLeIsTotalOrder();
    SortFacts(list, StrLe);
    PermutationNoDup(list, sorted);
    forall v ensures v in sorted <==> v in list {
      assert v in sorted <==> v in multiset(sorted);
      assert v in list <==> v in multiset(list);
    }
  }

  /** Reads a set out into a list, as iterating a Go map does: in no
      particular order, each member once. */
  method ListSymbols(syms: set<string>) returns (list: seq<string>)
    ensures NoDup(list) && |list| == |syms|
    ensures forall v :: v in list <==> v in syms
  {
    list := [];
    var rest := syms;
    while rest != {}
      invariant rest <= syms && NoDup(list)
      invariant forall v :: v in list <==> v in syms && v !in rest
      invariant |list| + |rest| == |syms|
      decreases |rest|
    {
      var v :| v in rest;
      list := list + [v];
      rest := rest - {v};
    }
  }

  /** The last pass of `Fill`: every empty cell gets the whole alphabet as
      its candidates; filled cells are left as they are. */
  method SeedCandidates(b: Board, symbols: seq<string>) returns (r: Board)
    ensures SameShape(r, b)
    ensures forall l :: OnBoard(b, l) ==>
      At(r, l) == if At(b, l).cell.value == ""
                  then At(b, l).(cell := At(b, l).cell.(candidates := symbols))
                  else At(b, l)
  {
    r := b;
    var y := 0;
    while y < |r|
      invariant 0 <= y <= |r| && SameShape(r, b)
      invariant forall l :: OnBoard(b, l) ==>
        r[l.y][l.x] == if l.y < y && At(b, l).cell.value == ""
                       then At(b, l).(cell := At(b, l).cell.(candidates := symbols))
                       else At(b, l)
    {
      var row := b[y];
      var x := 0;
      while x < |row|
        invariant 0 <= x <= |row| && |row| == |b[y]|
        invariant forall xx :: 0 <= xx < |row| ==>
          row[xx] == if xx < x && b[y][xx].cell.value == ""
                     then b[y][xx].(cell := b[y][xx].cell.(candidates := symbols))
                     else b[y][xx]
      {
        if row[x].cell.value == "" {
          row := row[x := row[x].(cell := row[x].cell.(candidates := symbols))];
        }
        x := x + 1;
      }
      r := r[y := row];
      y := y + 1;
    }
  }

  class Game {
    var symbols: seq<string>
    var board: Board
    var lastFilled: Option<Loc>
    var config: Config

    constructor(config: Config)
      ensures this.config == config
      ensures symbols == [] && board == [] && lastFilled == None
    {
      this.config := config;
      symbols := [];
      board := [];
      lastFilled := None;
    }

    /** Builds the board from a grid of symbols ("" is an empty cell) and a
        location-to-group map, derives the sorted alphabet and seeds every
        empty cell with all of it. On an error the board is built but not
        seeded, and the alphabet is left unsorted. */
    method Fill(cells: seq<seq<string>>, group: map<Loc, int>) returns (err: Option<FillError>)
      modifies this
      ensures Laid(board, cells, group, if err == None then symbols else [])
      ensures NoDup(symbols) && forall v :: v in symbols <==> v in GridSymbols(cells)
      ensures err == None ==> SortedBy(symbols, StrLe)
      ensures err == Some(NoSymbols) <==> GridSymbols(cells) == {}
      ensures err == None <==>
        GridSymbols(cells) != {} && CountCheck(|GridSymbols(cells)|, cells, group)
      ensures err == None || err == Some(NoSymbols) ||
        err == Some(SymbolGroupMismatch(|GridSymbols(cells)|, |GridTags(cells, group)|))
      ensures WellFormed(board)
      ensures config == old(config) && lastFilled == old(lastFilled)
    {
      var b, syms, tags := BuildGrid(cells, group);
      var list := ListSymbols(syms);
      if |list| == 0 {
        assert syms == {};
        SeedWellFormed(b, cells, group, b, []);
        err := Some(NoSymbols);
      } else if |list| != |tags| {
        assert list[0] in syms;
        SeedWellFormed(b, cells, group, b, []);
        err := Some(SymbolGroupMismatch(|list|, |tags|));
      } else {
        assert list[0] in syms;
        b, list := SeedBoard(cells, group, b, list);
        err := None;
      }
      board, symbols := b, list;
    }

    /** Builds the board from numbers: 0 is an empty cell and 1 to 9 are the
        symbols "1" to "9"; the first out-of-range value, in row-major
        order, is reported and leaves the game as it was. The groups come
        from the standard 9x9 layout, passed in as `defaultGroups`. */
    method FillBasic(cells: seq<seq<int>>, defaultGroups: map<Loc, int>) returns (err: Option<FillError>)
      modifies this
      ensures err.Some? <==> exists l :: OnBoard(cells, l) && !Accepted(cells[l.y][l.x])
      ensures err.Some? ==>
        && err.value.InvalidValue?
        && OnBoard(cells, Loc(err.value.x, err.value.y))
        && err.value.v == cells[err.value.y][err.value.x]
        && !Accepted(err.value.v)
        && (forall l :: OnBoard(cells, l) && Before(l, Loc(err.value.x, err.value.y)) ==>
              Accepted(cells[l.y][l.x]))
      ensures err.Some? ==> board == old(board) && symbols == old(symbols)
      ensures err.None? ==> SameShape(board, cells) && WellFormed(board)
      ensures err.None? ==> forall l :: OnBoard(cells, l) ==>
        && At(board, l).group == GroupOf(defaultGroups, l)
        && At(board, l).cell.value == BasicSymbol(cells[l.y][l.x])
      ensures err.None? ==> forall v :: v in symbols <==> v in GridSymbols(BasicCells(cells))
      ensures err.None? ==> NoDup(symbols)
      ensures err.None? ==> Laid(board, BasicCells(cells), defaultGroups,
        if Seeded(cells, defaultGroups) then symbols else [])
      ensures err.None? && Seeded(cells, defaultGroups) ==> SortedBy(symbols, StrLe)
      ensures config == old(config) && lastFilled == old(lastFilled)
    {
      var strCells, bad := BasicGrid(cells);
      if bad.Some? {
        var l := bad.value;
        return Some(InvalidValue(l.x, l.y, cells[l.y][l.x]));
      }
      var _ := Fill(strCells, defaultGroups);
      return None;
    }

    /** Fills a cell: it holds `v` and has no candidates left. */
    method Set(l: Loc, v: string)
      requires OnBoard(board, l)
      modifies this
      ensures board == WithCell(old(board), l, AfterSet(At(old(board), l).cell, v))
      ensures symbols == old(symbols) && lastFilled == old(lastFilled) && config == old(config)
    {
      board := WithCell(board, l, AfterSet(At(board, l).cell, v));
    }

    /** Removes the requested non-empty symbols from one cell's candidates
        and returns those it actually held. */
    method RemoveCandidates(l: Loc, vs: seq<string>) returns (removed: seq<string>)
      requires OnBoard(board, l)
      modifies this
      ensures removed == RemovedBy(At(old(board), l).cell, vs)
      ensures board == WithCell(old(board), l, Removal(At(old(board), l).cell, vs))
      ensures symbols == old(symbols) && lastFilled == old(lastFilled) && config == old(config)
    {
      var c := At(board, l).cell;
      removed := RemovedBy(c, vs);
      board := WithCell(board, l, Removal(c, vs));
    }

    /** Marks the cell the solver filled last. */
    method SetLastFilled(l: Loc)
      modifies this
      ensures lastFilled == Some(l)
      ensures board == old(board) && symbols == old(symbols) && config == old(config)
    {
      lastFilled := Some(l);
    }

    /** Forgets which candidates were removed recently. */
    method RemoveAllRecentCandidates()
      modifies this
      ensures board == ClearRecent(old(board))
      ensures symbols == old(symbols) && lastFilled == old(lastFilled) && config == old(config)
    {
      board := ClearRecent(board);
    }

    /** The first cell, in row-major order, with exactly one candidate, and
        that candidate; `None` exactly when no cell has one candidate. */
    method SingleCandidate() returns (r: Option<(Loc, string)>)
      ensures r.Some? ==> OnBoard(board, r.value.0) && CandidatesAt(board, r.value.0) == [r.value.1]
      ensures r.Some? ==> forall l :: OnBoard(board, l) && Before(l, r.value.0) ==>
        |CandidatesAt(board, l)| != 1
      ensures r.None? <==> forall l :: OnBoard(board, l) ==> |CandidatesAt(board, l)| != 1
    {
      var y := 0;
      while y < |board|
        invariant 0 <= y <= |board|
        invariant forall l :: OnBoard(board, l) && l.y < y ==> |CandidatesAt(board, l)| != 1
      {
        var x := 0;
        while x < |board[y]|
          invariant 0 <= x <= |board[y]|
          invariant forall l :: OnBoard(board, l) && Before(l, Loc(x, y)) ==> |CandidatesAt(board, l)| != 1
        {
          var cands := board[y][x].cell.candidates;
          if |cands| == 1 {
            return Some((Loc(x, y), cands[0]));
          }
          x := x + 1;
        }
        y := y + 1;
      }
      return None;
    }
  }

  /** Placing a cell's sole candidate keeps the board well-formed and lowers
      the total by one. */
  lemma PlacementFacts(b: Board, l: Loc, v: string)
    requires OnBoard(b, l) && WellFormed(b) && CandidatesAt(b, l) == [v]
    ensures WellFormed(WithCell(b, l, AfterSet(At(b, l).cell, v)))
    ensures Total(WithCell(b, l, AfterSet(At(b, l).cell, v))) + 1 == Total(b)
    ensures v != ""
  {
    var b1 := WithCell(b, l, AfterSet(At(b, l).cell, v));
    WithCellFacts(b, l, AfterSet(At(b, l).cell, v));
    TotalWithCell(b, l, AfterSet(At(b, l).cell, v));
    assert CellOk(At(b, l).cell);
    assert v in CandidatesAt(b, l);
  }
}
