/** Fistemafel Ring, a rule of a Sudoku variant: the sixteen cells of the
    four corner blocks and the sixteen cells ringing the centre hold the
    same values. Once exactly one of the two sets is completely filled, an
    open cell of the other set may only keep candidates among the complete
    set's values; one call clears the first such cell, in the set's order,
    that loses something. */
module FistemafelRing {
  import opened Seqs
  import opened Sudoku
  import opened Hints

  const Name := "Fistemafel Ring"

  /** The 2×2 blocks in the four corners of a 9×9 board, row by row. */
  function Corners(): (r: seq<Loc>)
    ensures |r| == 16 && NoDup(r)
    ensures forall i :: 0 <= i < |r| ==> r[i].x < 9 && r[i].y < 9 && (r[i].x < 2 || 6 < r[i].x) && (r[i].y < 2 || 6 < r[i].y)
  {
    [ Loc(0, 0), Loc(1, 0), Loc(7, 0), Loc(8, 0),
      Loc(0, 1), Loc(1, 1), Loc(7, 1), Loc(8, 1),
      Loc(0, 7), Loc(1, 7), Loc(7, 7), Loc(8, 7),
      Loc(0, 8), Loc(1, 8), Loc(7, 8), Loc(8, 8) ]
  }

  /** The border of the 5×5 square at the centre of a 9×9 board, row by
      row. */
  function Ring(): (r: seq<Loc>)
    ensures |r| == 16 && NoDup(r)
    ensures forall i :: 0 <= i < |r| ==>
      2 <= r[i].x <= 6 && 2 <= r[i].y <= 6 && (r[i].x == 2 || r[i].x == 6 || r[i].y == 2 || r[i].y == 6)
  {
    [ Loc(2, 2), Loc(3, 2), Loc(4, 2), Loc(5, 2), Loc(6, 2),
      Loc(2, 3), Loc(6, 3),
      Loc(2, 4), Loc(6, 4),
      Loc(2, 5), Loc(6, 5),
      Loc(2, 6), Loc(3, 6), Loc(4, 6), Loc(5, 6), Loc(6, 6) ]
  }

  /** The matching sets, "corners" first and "ring" second; no cell is in
      both. */
  function Sets(): (r: seq<seq<Loc>>)
    ensures |r| == 2 && r[0] == Corners() && r[1] == Ring()
  {
    [Corners(), Ring()]
  }

  lemma SetsDisjoint()
    ensures forall i, j :: 0 <= i < 16 && 0 <= j < 16 ==> Corners()[i] != Ring()[j]
  {
    var c, r := Corners(), Ring();
    forall i, j | 0 <= i < 16 && 0 <= j < 16 ensures c[i] != r[j] {
      assert c[i].x < 2 || 6 < c[i].x;
      assert 2 <= r[j].x <= 6;
    }
  }

  /** The cells of `ls` that lie on the board, in the order of `ls`; the
      others are skipped. */
  function Present(b: Board, ls: seq<Loc>): (r: seq<Loc>)
    ensures |r| <= |ls|
    ensures forall l :: l in r <==> l in ls && OnBoard(b, l)
    decreases |ls|
  {
    if ls == [] then []
    else
      var last := ls[|ls| - 1];
      assert forall l :: l in ls <==> l in ls[..|ls| - 1] || l == last;
      Present(b, ls[..|ls| - 1]) + if OnBoard(b, last) then [last] else []
  }

  /** Every present cell of the set has a value; a set with no cell on the
      board counts as complete. */
  predicate Complete(b: Board, ls: seq<Loc>) {
    forall l :: l in Present(b, ls) ==> At(b, l).cell.value != ""
  }

  /** The values of the set's present, filled cells. */
  function Values(b: Board, ls: seq<Loc>): set<string> {
    set l | l in Present(b, ls) && At(b, l).cell.value != "" :: At(b, l).cell.value
  }

  /** Set `k` is the only complete one among `sets`. */
  predicate SoleComplete(b: Board, sets: seq<seq<Loc>>, k: int) {
    && 0 <= k < |sets| && Complete(b, sets[k])
    && forall i :: 0 <= i < |sets| && i != k ==> !Complete(b, sets[i])
  }

  /** What the rule asks a cell to drop: its candidates that are not among
      `vals`, in the cell's order. */
  function Foreign(c: Cell, vals: set<string>): (r: seq<string>)
    ensures IsSubseq(r, c.candidates)
    ensures forall v :: v in r <==> v in c.candidates && v !in vals
  {
    FilterFacts(c.candidates, vals);
    Keep(c.candidates, vals)
  }

  /** The cell at `l` gives the rule nothing to take: it is filled, or it
      holds no removable candidate outside `vals`. */
  ghost predicate Calm(b: Board, l: Loc, vals: set<string>)
    requires OnBoard(b, l)
  {
    At(b, l).cell.value != "" || RemovedBy(At(b, l).cell, Foreign(At(b, l).cell, vals)) == []
  }

  /** Every present cell of set `i` is calm against `vals`. */
  ghost predicate SetCalm(b: Board, ls: seq<Loc>, vals: set<string>) {
    forall l :: l in Present(b, ls) ==> Calm(b, l, vals)
  }

  /** With set `k` the only complete one, the `j`-th present cell of set
      `i` (another set) is open and loses `vs` — its candidates that are not
      among set `k`'s values — while every present cell of the other sets
      before `i`, and of set `i` before `j`, is calm. */
  ghost predicate Fires(b: Board, sets: seq<seq<Loc>>, k: int, i: int, j: int, vs: seq<string>) {
    && SoleComplete(b, sets, k)
    && 0 <= i < |sets| && i != k
    && var cells := Present(b, sets[i]);
    && var vals := Values(b, sets[k]);
    && 0 <= j < |cells|
    && At(b, cells[j]).cell.value == ""
    && vs == Foreign(At(b, cells[j]).cell, vals)
    && RemovedBy(At(b, cells[j]).cell, vs) != []
    && (forall i' :: 0 <= i' < i && i' != k ==> SetCalm(b, sets[i'], vals))
    && forall j' :: 0 <= j' < j ==> Calm(b, cells[j'], vals)
  }

  /** The rule has nothing to do: no set is the only complete one, or every
      present cell of every other set is calm. */
  ghost predicate Idle(b: Board, sets: seq<seq<Loc>>) {
    forall k :: SoleComplete(b, sets, k) ==>
      forall i :: 0 <= i < |sets| && i != k ==> SetCalm(b, sets[i], Values(b, sets[k]))
  }

  /** Number of `true` entries. */
  function Count(s: seq<bool>): nat {
    if s == [] then 0 else Count(s[..|s| - 1]) + if s[|s| - 1] then 1 else 0
  }

  /** With a single `true` entry, every other entry is `false`. */
  lemma {:induction false} CountOne(s: seq<bool>, k: int)
    requires 0 <= k < |s| && s[k] && Count(s) == 1
    ensures forall m :: 0 <= m < |s| && m != k ==> !s[m]
    decreases |s|
  {
    var init := s[..|s| - 1];
    if k < |s| - 1 {
      assert init[k];
      CountPositive(init, k);
      CountOne(init, k);
    } else {
      CountZero(init);
    }
  }

  /** A single `true` entry counts one. */
  lemma {:induction false} CountSingle(s: seq<bool>, k: int)
    requires 0 <= k < |s| && s[k] && forall m :: 0 <= m < |s| && m != k ==> !s[m]
    ensures Count(s) == 1
    decreases |s|
  {
    var init := s[..|s| - 1];
    if k < |s| - 1 {
      CountSingle(init, k);
    } else {
      CountNone(init);
    }
  }

  lemma {:induction false} CountNone(s: seq<bool>)
    requires forall m :: 0 <= m < |s| ==> !s[m]
    ensures Count(s) == 0
    decreases |s|
  {
    if s != [] {
      CountNone(s[..|s| - 1]);
    }
  }

  lemma {:induction false} CountPositive(s: seq<bool>, k: int)
    requires 0 <= k < |s| && s[k]
    ensures Count(s) >= 1
    decreases |s|
  {
    if k < |s| - 1 {
      CountPositive(s[..|s| - 1], k);
    }
  }

  lemma {:induction false} CountZero(s: seq<bool>)
    requires Count(s) == 0
    ensures forall m :: 0 <= m < |s| ==> !s[m]
    decreases |s|
  {
    if s != [] {
      CountZero(s[..|s| - 1]);
      assert forall m :: 0 <= m < |s| - 1 ==> s[m] == s[..|s| - 1][m];
    }
  }

  /** The on-board cells of each set, in the set's order. */
  method PresentCells(b: Board, sets: seq<seq<Loc>>) returns (cells: seq<seq<Loc>>)
    ensures |cells| == |sets|
    ensures forall i :: 0 <= i < |sets| ==> cells[i] == Present(b, sets[i])
  {
    cells := [];
    for i := 0 to |sets|
      invariant |cells| == i
      invariant forall i' :: 0 <= i' < i ==> cells[i'] == Present(b, sets[i'])
    {
      var ls := sets[i];
      var present := [];
      for j := 0 to |ls|
        invariant present == Present(b, ls[..j])
      {
        assert ls[..j + 1][..j] == ls[..j];
        if ls[j].y < |b| && ls[j].x < |b[ls[j].y]| {
          present := present + [ls[j]];
        }
      }
      assert ls[..|ls|] == ls;
      cells := cells + [present];
    }
  }

  /** Whether every cell of `cells` is filled, with the values of the filled
      ones. */
  method Survey(b: Board, cells: seq<Loc>) returns (complete: bool, vals: set<string>)
    requires forall l :: l in cells ==> OnBoard(b, l)
    ensures complete <==> forall l :: l in cells ==> At(b, l).cell.value != ""
    ensures vals == set l | l in cells && At(b, l).cell.value != "" :: At(b, l).cell.value
  {
    vals := {};
    var filled := 0;
    for j := 0 to |cells|
      invariant filled <= j
      invariant filled == j <==> forall l :: l in cells[..j] ==> At(b, l).cell.value != ""
      invariant vals == set l | l in cells[..j] && At(b, l).cell.value != "" :: At(b, l).cell.value
    {
      var l := cells[j];
      assert forall m :: m in cells[..j + 1] <==> m in cells[..j] || m == l;
      if At(b, l).cell.value != "" {
        vals := vals + {At(b, l).cell.value};
        filled := filled + 1;
      }
    }
    assert cells[..|cells|] == cells;
    complete := filled == |cells|;
  }

  /** The candidates of `c` that are not among `vals`, collected in order. */
  method ForeignOf(c: Cell, vals: set<string>) returns (toRemove: seq<string>)
    ensures toRemove == Foreign(c, vals)
  {
    toRemove := [];
    for m := 0 to |c.candidates|
      invariant toRemove == Keep(c.candidates[..m], vals)
    {
      KeepSnoc(c.candidates[..m], c.candidates[m], vals);
      assert c.candidates[..m + 1] == c.candidates[..m] + [c.candidates[m]];
      if c.candidates[m] !in vals {
        toRemove := toRemove + [c.candidates[m]];
      }
    }
    assert c.candidates[..|c.candidates|] == c.candidates;
  }

  /** The index of the last complete set and the number of complete sets. */
  method CountComplete(complete: seq<bool>) returns (idx: int, count: nat)
    ensures count == Count(complete)
    ensures count == 0 <==> idx == -1
    ensures idx != -1 ==> 0 <= idx < |complete| && complete[idx]
  {
    idx, count := -1, 0;
    for i := 0 to |complete|
      invariant count == Count(complete[..i])
      invariant count == 0 <==> idx == -1
      invariant idx != -1 ==> 0 <= idx < i && complete[idx]
    {
      assert complete[..i + 1][..i] == complete[..i];
      if complete[i] {
        idx, count := i, count + 1;
      }
    }
    assert complete[..|complete|] == complete;
  }

  /** Whether each set is complete, with each set's values. */
  method SurveyAll(b: Board, sets: seq<seq<Loc>>, cells: seq<seq<Loc>>)
    returns (complete: seq<bool>, values: seq<set<string>>)
    requires |cells| == |sets| && forall i :: 0 <= i < |sets| ==> cells[i] == Present(b, sets[i])
    ensures |complete| == |values| == |sets|
    ensures forall i :: 0 <= i < |sets| ==> (complete[i] <==> Complete(b, sets[i]))
    ensures forall i :: 0 <= i < |sets| ==> values[i] == Values(b, sets[i])
  {
    complete, values := [], [];
    for i := 0 to |sets|
      invariant |complete| == |values| == i
      invariant forall i' :: 0 <= i' < i ==> (complete[i'] <==> Complete(b, sets[i']))
      invariant forall i' :: 0 <= i' < i ==> values[i'] == Values(b, sets[i'])
    {
      var c, v := Survey(b, cells[i]);
      complete, values := complete + [c], values + [v];
    }
  }

  /** The first open cell of `cells`, in order, that loses something when
      asked to drop its candidates outside `vals`, with what it is asked
      to drop. */
  method ScanCells(b: Board, cells: seq<Loc>, vals: set<string>) returns (r: Option<(int, seq<string>)>)
    requires forall l :: l in cells ==> OnBoard(b, l)
    ensures r.Some? ==>
      && 0 <= r.value.0 < |cells|
      && At(b, cells[r.value.0]).cell.value == ""
      && r.value.1 == Foreign(At(b, cells[r.value.0]).cell, vals)
      && RemovedBy(At(b, cells[r.value.0]).cell, r.value.1) != []
      && forall j' :: 0 <= j' < r.value.0 ==> Calm(b, cells[j'], vals)
    ensures r.None? ==> forall l :: l in cells ==> Calm(b, l, vals)
  {
    for j := 0 to |cells|
      invariant forall j' :: 0 <= j' < j ==> Calm(b, cells[j'], vals)
    {
      var c := At(b, cells[j]).cell;
      if c.value != "" {
        continue;
      }
      var toRemove := ForeignOf(c, vals);
      if |toRemove| == 0 {
        TakenNone(c.candidates, Requested(toRemove));
        continue;
      }
      if |RemovedBy(c, toRemove)| > 0 {
        return Some((j, toRemove));
      }
    }
    return None;
  }

    /** The search once set `k` is known to be the only complete one: the
      first open cell, over the other sets in order, that loses candidates
      foreign to set `k`'s values. */
  method ScanOthers(b: Board, sets: seq<seq<Loc>>, cells: seq<seq<Loc>>, k: int)
    returns (r: Option<(Loc, seq<string>)>)
    requires SoleComplete(b, sets, k)
    requires |cells| == |sets| && forall i :: 0 <= i < |sets| ==> cells[i] == Present(b, sets[i])
    ensures r.Some? ==> exists i, j ::
      Fires(b, sets, k, i, j, r.value.1) && Present(b, sets[i])[j] == r.value.0
    ensures r.None? ==> forall i :: 0 <= i < |sets| && i != k ==> SetCalm(b, sets[i], Values(b, sets[k]))
  {
    var vals := Values(b, sets[k]);
    for i := 0 to |sets|
      invariant forall i' :: 0 <= i' < i && i' != k ==> SetCalm(b, sets[i'], vals)
    {
      if i == k {
        continue;
      }
      assert forall l :: l in cells[i] ==> OnBoard(b, l);
      var found := ScanCells(b, cells[i], vals);
      if found.Some? {
        assert Fires(b, sets, k, i, found.value.0, found.value.1);
        return Some((cells[i][found.value.0], found.value.1));
      }
      assert SetCalm(b, sets[i], vals);
    }
    return None;
  }

/** The rule on a board with the given matching sets: the cell to clear
      and the candidates to ask it to drop, or nothing when the rule has
      nothing to do. */
  method Scan(b: Board, sets: seq<seq<Loc>>) returns (r: Option<(Loc, seq<string>)>)
    ensures r.Some? ==> exists k, i, j ::
      Fires(b, sets, k, i, j, r.value.1) && Present(b, sets[i])[j] == r.value.0
    ensures r.None? ==> Idle(b, sets)
  {
    var cells := PresentCells(b, sets);
    var complete, values := SurveyAll(b, sets, cells);
    var idx, count := CountComplete(complete);
    if count != 1 {
      forall k | SoleComplete(b, sets, k) ensures false {
        CountSingle(complete, k);
      }
      return None;
    }
    CountOne(complete, idx);
    assert SoleComplete(b, sets, idx);
    r := ScanOthers(b, sets, cells, idx);
    if r.None? {
      forall k | SoleComplete(b, sets, k) ensures k == idx {
        CountOne(complete, idx);
      }
    }
  }

  /** `EliminatorFistemafelRing`'s game eliminator: the rule's finding on
      the corners and the ring, if any, applied to the game's board. It
      never fails. */
  method Eliminate(g: Game) returns (out: Outcome)
    modifies g
    ensures !out.Failed?
    ensures out.Unchanged? ==> g.board == old(g.board) && Idle(old(g.board), Sets())
    ensures out.Changed? ==> exists k, i, j, vs ::
      && Fires(old(g.board), Sets(), k, i, j, vs)
      && Present(old(g.board), Sets()[i])[j] == out.loc
      && out.removed == RemovedBy(At(old(g.board), out.loc).cell, vs)
      && g.board == WithCell(old(g.board), out.loc, Removal(At(old(g.board), out.loc).cell, vs))
    ensures g.symbols == old(g.symbols) && g.lastFilled == old(g.lastFilled) && g.config == old(g.config)
  {
    var r := Scan(g.board, Sets());
    if r.None? {
      return Unchanged;
    }
    var (l, vs) := r.value;
    var removed := g.RemoveCandidates(l, vs);
    out := Changed(l, removed);
  }

  /** When the rule fires: the cell lies on the board in an incomplete set
      and outside the complete one, it is open, and on a well-formed board
      it loses exactly the candidates that are not among the complete set's
      values, so that afterwards all of its candidates are among them. */
  lemma RingSound(b: Board, sets: seq<seq<Loc>>, k: int, i: int, j: int, vs: seq<string>)
    requires Fires(b, sets, k, i, j, vs) && WellFormed(b)
    ensures var l := Present(b, sets[i])[j];
      && OnBoard(b, l) && l in sets[i] && l !in sets[k]
      && At(b, l).cell.value == ""
      && RemovedBy(At(b, l).cell, vs) == vs
      && forall v :: v in Removal(At(b, l).cell, vs).candidates ==> v in Values(b, sets[k])
  {
    var l := Present(b, sets[i])[j];
    var c := At(b, l).cell;
    var vals := Values(b, sets[k]);
    assert l in Present(b, sets[i]);
    assert l !in Present(b, sets[k]);
    assert CellOk(c);
    FilterFacts(c.candidates, vals);
    KeepComplement(c.candidates, vals, Requested(vs));
    RemovalSpec(c, vs);
  }
}
