/** What eliminators produce and how a hint becomes a change: a partition
    hinter names one cell and the candidates to take from it, and the
    eliminator built from it removes them from that cell. */
module Hints {
  import opened Seqs
  import opened Sudoku
  import opened Partitions

  /** A hinter's finding: take `toRemove` from the cell at `loc`. */
  datatype Hint = Hint(loc: Loc, eliminator: string, toRemove: seq<string>)

  /** What a partition hinter returns: nothing to do, a hint, or an error. */
  datatype HintResult = NoHint | Hinted(hint: Hint) | HintFailed(err: string)

  /** What an eliminator reports. `Unchanged` is the empty change string;
      `Changed` stands for the message naming the cell and the candidates
      (its text is not modelled). */
  datatype Outcome = Unchanged | Changed(loc: Loc, removed: seq<string>) | Failed(err: string)

  /** `PartitionHinterToEliminator`: the eliminator runs the hinter and, on a
      hint, removes the hinted candidates from the hinted cell and reports
      the hint; the hinter's own result is passed in as `h`. Its message
      names what was asked for, not what `RemoveCandiates` returned. */
  method ApplyHint(g: Game, h: HintResult) returns (out: Outcome)
    requires h.Hinted? ==> OnBoard(g.board, h.hint.loc)
    modifies g
    ensures h.HintFailed? ==> out == Failed(h.err) && g.board == old(g.board)
    ensures h.NoHint? ==> out == Unchanged && g.board == old(g.board)
    ensures h.Hinted? ==>
      && out == Changed(h.hint.loc, h.hint.toRemove)
      && g.board == WithCell(old(g.board), h.hint.loc, Removal(At(old(g.board), h.hint.loc).cell, h.hint.toRemove))
    ensures g.symbols == old(g.symbols) && g.lastFilled == old(g.lastFilled) && g.config == old(g.config)
  {
    match h
    case HintFailed(err) =>
      out := Failed(err);
    case NoHint =>
      out := Unchanged;
    case Hinted(hint) =>
      var _ := g.RemoveCandidates(hint.loc, hint.toRemove);
      out := Changed(hint.loc, hint.toRemove);
  }
}
