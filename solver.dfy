/** `Game.StepThrough`: the solving loop. It places naked singles, checks
    each placement for a contradiction and for a win, and otherwise asks
    the elimination driver for progress. The writer and the rendering are
    left out; the contradiction check is a parameter and the scanner is the
    sequence of lines it would return. */
module Solver {
  import opened Seqs
  import opened Sudoku
  import opened Partitions
  import opened Hints
  import FilledCell
  import opened Driver
  import opened Steps

  /** How the loop ended: the driver failed (its message), a placement made
      the board contradictory, a placement won, or `RunOnce` stopped after
      one placement. */
  datatype Ending = Stuck(msg: string) | Contradiction | Solved | StoppedOnce

  /** Every cell holds a value. */
  predicate Won(b: Board) {
    forall y, x :: 0 <= y < |b| && 0 <= x < |b[y]| ==> b[y][x].cell.value != ""
  }

  /** `b1` grew out of `b0` by solving: the layout is the same, candidates
      only go away, and a value is only written into an empty cell, taken
      from that cell's candidates, which are then gone. */
  ghost predicate Refines(b0: Board, b1: Board) {
    && SameLayout(b0, b1)
    && forall l :: OnBoard(b0, l) ==>
      && IsSubseq(CandidatesAt(b1, l), CandidatesAt(b0, l))
      && (At(b1, l).cell.value == At(b0, l).cell.value ||
          (At(b0, l).cell.value == "" && At(b1, l).cell.value in CandidatesAt(b0, l) && CandidatesAt(b1, l) == []))
  }

  lemma RefinesRefl(b: Board)
    ensures Refines(b, b)
  {
    forall l | OnBoard(b, l) ensures IsSubseq(CandidatesAt(b, l), CandidatesAt(b, l)) {
      SubseqRefl(CandidatesAt(b, l));
    }
  }

  /** Solving steps compose. */
  lemma RefinesTrans(b0: Board, b1: Board, b2: Board)
    requires Refines(b0, b1) && Refines(b1, b2)
    ensures Refines(b0, b2)
  {
    forall l | OnBoard(b0, l)
      ensures IsSubseq(CandidatesAt(b2, l), CandidatesAt(b0, l))
      ensures At(b2, l).cell.value == At(b0, l).cell.value ||
        (At(b0, l).cell.value == "" && At(b2, l).cell.value in CandidatesAt(b0, l) && CandidatesAt(b2, l) == [])
    {
      assert OnBoard(b1, l);
      SubseqTrans(CandidatesAt(b2, l), CandidatesAt(b1, l), CandidatesAt(b0, l));
      SubseqFacts(CandidatesAt(b1, l), CandidatesAt(b0, l));
      SubseqFacts(CandidatesAt(b2, l), CandidatesAt(b1, l));
    }
  }

  /** Deleting candidates is a solving step. */
  lemma ShrinksRefines(b0: Board, b1: Board)
    requires Shrinks(b0, b1)
    ensures Refines(b0, b1)
  {
  }

  /** Placing a cell's sole candidate is a solving step that fills an empty
      cell, keeps the board well formed and lowers the candidate count by
      one. */
  lemma PlacementRefines(b: Board, l: Loc, v: string)
    requires OnBoard(b, l) && WellFormed(b) && CandidatesAt(b, l) == [v]
    ensures Refines(b, WithCell(b, l, AfterSet(At(b, l).cell, v)))
    ensures At(b, l).cell.value == "" && At(WithCell(b, l, AfterSet(At(b, l).cell, v)), l).cell.value == v != ""
    ensures WellFormed(WithCell(b, l, AfterSet(At(b, l).cell, v)))
    ensures Total(WithCell(b, l, AfterSet(At(b, l).cell, v))) < Total(b)
  {
    var b1 := WithCell(b, l, AfterSet(At(b, l).cell, v));
    PlacementFacts(b, l, v);
    WithCellFacts(b, l, AfterSet(At(b, l).cell, v));
    assert CellOk(At(b, l).cell);
    forall k | OnBoard(b, k) ensures IsSubseq(CandidatesAt(b1, k), CandidatesAt(b, k)) {
      if k == l {
        assert CandidatesAt(b1, k) == [];
      } else {
        SubseqRefl(CandidatesAt(b, k));
      }
    }
  }

  /** A won board stays won: solving never empties a cell. */
  lemma RefinesWon(b0: Board, b1: Board)
    requires Refines(b0, b1) && Won(b0)
    ensures Won(b1)
  {
    forall y, x | 0 <= y < |b1| && 0 <= x < |b1[y]| ensures b1[y][x].cell.value != "" {
      assert OnBoard(b0, Loc(x, y));
    }
  }

  /** `lf` names a cell that was empty on `b0` and holds a value on `b`. */
  ghost predicate Marked(b0: Board, b: Board, lf: Option<Loc>) {
    lf.Some? && OnBoard(b, lf.value) && OnBoard(b0, lf.value) &&
    At(b0, lf.value).cell.value == "" && At(b, lf.value).cell.value != ""
  }

  /** A driver step keeps the loop's facts about the board. */
  lemma EliminationStep(b0: Board, b: Board, b1: Board, n: nat, lf: Option<Loc>)
    requires Refines(b0, b) && Shrinks(b, b1) && Fits(b, n)
    ensures Refines(b0, b1) && Fits(b1, n)
    ensures Marked(b0, b, lf) ==> Marked(b0, b1, lf)
  {
    ShrinksRefines(b, b1);
    RefinesTrans(b0, b, b1);
    LayoutFits(b, b1, n);
  }

  /** A placement keeps the loop's facts about the board, marks the cell it
      fills and lowers the candidate count. */
  lemma PlacementStep(b0: Board, b: Board, l: Loc, v: string, n: nat)
    requires Refines(b0, b) && WellFormed(b) && Fits(b, n)
    requires OnBoard(b, l) && CandidatesAt(b, l) == [v]
    ensures var b1 := WithCell(b, l, AfterSet(At(b, l).cell, v));
      && Refines(b0, b1) && WellFormed(b1) && Fits(b1, n)
      && Marked(b0, b1, Some(l)) && Total(b1) < Total(b)
  {
    var b1 := WithCell(b, l, AfterSet(At(b, l).cell, v));
    PlacementRefines(b, l, v);
    RefinesTrans(b0, b, b1);
    LayoutFits(b, b1, n);
    assert OnBoard(b0, l);
  }

  /** The board facts the stepping loop keeps: it refines the starting
      board, stays well formed and fits the symbol count. */
  ghost predicate Kept(b0: Board, b: Board, n: nat) {
    Refines(b0, b) && WellFormed(b) && Fits(b, n)
  }

  /** One call of the driver from the stepping loop, stated with only the
      facts the loop uses. */
  method EliminationRound(g: Game, reg: seq<Rule>, m: Matcher, ghost b0: Board) returns (rep: Report)
    requires Kept(b0, g.board, |g.symbols|) && MatcherOk(m) && Honest(m)
    modifies g
    ensures g.symbols == old(g.symbols) && g.lastFilled == old(g.lastFilled) && g.config == old(g.config)
    ensures rep.Fail? ==> g.board == old(g.board)
    ensures rep.Fail? && rep.msg == NoneEliminated ==>
      QuietBefore(reg, m, false, g.board, Sectioned(g.board, |g.symbols|), |reg|)
    ensures !rep.Fail? ==> Kept(b0, g.board, |g.symbols|) && Total(g.board) < Total(old(g.board))
    ensures !rep.Fail? && Marked(b0, old(g.board), g.lastFilled) ==> Marked(b0, g.board, g.lastFilled)
  {
    ghost var b := g.board;
    rep := EliminateCandidates(g, reg, m, false);
    if !rep.Fail? {
      EliminationStep(b0, b, g.board, |g.symbols|, g.lastFilled);
    }
  }

  /** Places a naked single and records it as the last filled cell. */
  method PlaceSingle(g: Game, l: Loc, v: string, ghost b0: Board)
    requires Kept(b0, g.board, |g.symbols|)
    requires OnBoard(g.board, l) && CandidatesAt(g.board, l) == [v]
    modifies g
    ensures g.symbols == old(g.symbols) && g.config == old(g.config) && g.lastFilled == Some(l)
    ensures g.board == WithCell(old(g.board), l, AfterSet(At(old(g.board), l).cell, v))
    ensures Kept(b0, g.board, |g.symbols|) && Marked(b0, g.board, g.lastFilled)
    ensures Total(g.board) < Total(old(g.board))
  {
    ghost var b := g.board;
    g.Set(l, v);
    g.SetLastFilled(l);
    PlacementStep(b0, b, l, v, |g.symbols|);
  }

  /** The stepping loop of `StepThrough`, from the first scan for a naked
      single to the `break` that ends it. `placed` counts the naked singles
      placed. */
  method Stepping(g: Game, reg: seq<Rule>, m: Matcher, bad: Board -> bool, input: seq<string>)
    returns (end: Ending, placed: nat)
    requires Fits(g.board, |g.symbols|) && WellFormed(g.board) && MatcherOk(m) && Honest(m)
    modifies g
    ensures g.symbols == old(g.symbols) && g.config == old(g.config)
    ensures Refines(old(g.board), g.board) && WellFormed(g.board) && Fits(g.board, |g.symbols|)
    ensures end.Stuck? ==> forall l :: OnBoard(g.board, l) ==> |CandidatesAt(g.board, l)| != 1
    ensures end.Stuck? && end.msg == NoneEliminated ==>
      QuietBefore(reg, m, false, g.board, Sectioned(g.board, |g.symbols|), |reg|)
    ensures end.Contradiction? ==> placed > 0 && bad(g.board)
    ensures end.Solved? ==> placed > 0 && !bad(g.board) && Won(g.board)
    ensures end.StoppedOnce? ==> placed == 1 && g.config.runOnce && !g.config.autoSolve && !bad(g.board) && !Won(g.board)
    ensures g.config.runOnce && !g.config.autoSolve ==> placed <= 1
    ensures placed == 0 ==> g.lastFilled == old(g.lastFilled)
    ensures placed > 0 ==> Marked(old(g.board), g.board, g.lastFilled)
  {
    ghost var b0 := g.board;
    RefinesRefl(b0);
    var solve := g.config.autoSolve;
    var next := 0;
    placed := 0;
    while true
      invariant g.symbols == old(g.symbols) && g.config == old(g.config)
      invariant Kept(b0, g.board, |g.symbols|)
      invariant g.config.autoSolve ==> solve
      invariant g.config.runOnce && !g.config.autoSolve ==> !solve
      invariant g.config.runOnce && !solve ==> placed == 0
      invariant placed == 0 ==> g.lastFilled == old(g.lastFilled)
      invariant placed > 0 ==> Marked(b0, g.board, g.lastFilled)
      decreases Total(g.board)
    {
      var single := g.SingleCandidate();
      if single.None? {
        var rep := EliminationRound(g, reg, m, b0);
        if rep.Fail? {
          return Stuck(rep.msg), placed;
        }
        continue;
      }
      var l, v := single.value.0, single.value.1;
      PlaceSingle(g, l, v, b0);
      placed := placed + 1;
      if bad(g.board) {
        return Contradiction, placed;
      }
      if Won(g.board) {
        return Solved, placed;
      }
      if !solve {
        if g.config.runOnce {
          return StoppedOnce, placed;
        }
        var text := if next < |input| then input[next] else "";
        next := next + 1;
        if text == "solve" || text == "s" {
          solve := true;
        }
      }
    }
  }

  /** `Game.StepThrough`: with `RunSimpleAfter` the recent markers are
      cleared first, with `RunSimpleFirst` Filled Cell runs to its fixpoint
      quietly, then the stepping loop runs, and with `RunSimpleAfter`
      Filled Cell runs to its fixpoint again at the end. */
  method StepThrough(g: Game, reg: seq<Rule>, m: Matcher, bad: Board -> bool, input: seq<string>)
    returns (end: Ending, placed: nat)
    requires Fits(g.board, |g.symbols|) && WellFormed(g.board) && MatcherOk(m) && Honest(m)
    modifies g
    ensures g.symbols == old(g.symbols) && g.config == old(g.config)
    ensures Refines(old(g.board), g.board) && WellFormed(g.board)
    ensures end.Solved? ==> placed > 0 && Won(g.board)
    ensures end.Contradiction? ==> placed > 0
    ensures end.Contradiction? && !g.config.runSimpleAfter ==> bad(g.board)
    ensures end.Solved? && !g.config.runSimpleAfter ==> !bad(g.board)
    ensures end.Stuck? && !g.config.runSimpleAfter ==> forall l :: OnBoard(g.board, l) ==> |CandidatesAt(g.board, l)| != 1
    ensures end.Stuck? && end.msg == NoneEliminated && !g.config.runSimpleAfter ==>
      QuietBefore(reg, m, false, g.board, Sectioned(g.board, |g.symbols|), |reg|)
    ensures end.StoppedOnce? ==> placed == 1 && g.config.runOnce && !g.config.autoSolve
    ensures g.config.runOnce && !g.config.autoSolve ==> placed <= 1
    ensures g.config.runSimpleAfter ==> forall v, i: nat :: i < |Select(Sectioned(g.board, |g.symbols|), v)| ==>
      && PartOn(g.board, Select(Sectioned(g.board, |g.symbols|), v)[i])
      && FilledCell.Settled(g.board, Select(Sectioned(g.board, |g.symbols|), v)[i])
  {
    ghost var b0 := g.board;
    RefinesRefl(b0);
    if g.config.runSimpleAfter {
      g.RemoveAllRecentCandidates();
      ClearRecentFacts(b0);
      ShrinksRefines(b0, g.board);
      LayoutFits(b0, g.board, |g.symbols|);
    }
    ghost var b1 := g.board;
    if g.config.runSimpleFirst {
      RemoveAllSimple(g, false);
      ShrinksRefines(b1, g.board);
      RefinesTrans(b0, b1, g.board);
      LayoutFits(b1, g.board, |g.symbols|);
    }
    ghost var b2 := g.board;
    end, placed := Stepping(g, reg, m, bad, input);
    RefinesTrans(b0, b2, g.board);
    if g.config.runSimpleAfter {
      ghost var b3 := g.board;
      RemoveAllSimple(g, false);
      ShrinksRefines(b3, g.board);
      RefinesTrans(b0, b3, g.board);
      SectionsSameLayout(b3, g.board, |g.symbols|);
      if end.Solved? {
        RefinesWon(b3, g.board);
      }
    }
  }
}
