/** Filled Cell: a candidate that is already the value of a cell of the
    same partition cannot stay; one call clears the first cell, in partition
    order, that holds such candidates. */
module FilledCell {
  import opened Seqs
  import opened Sudoku
  import opened Partitions
  import opened Hints

  const Name := "Filled Cell"

  /** The values of the partition's cells in partition order; an open cell
      contributes "". */
  function Values(b: Board, p: Part): seq<string>
    requires PartOn(b, p)
  {
    seq(|p|, i requires 0 <= i < |p| => At(b, p[i]).cell.value)
  }

  lemma ValuesFacts(b: Board, p: Part)
    requires PartOn(b, p)
    ensures forall v :: v in Values(b, p) <==> exists q :: q in p && At(b, q).cell.value == v
  {
    forall v, q | q in p && At(b, q).cell.value == v ensures v in Values(b, p) {
      var i :| 0 <= i < |p| && p[i] == q;
      assert Values(b, p)[i] == v;
    }
  }

  /** `Cell.CandidateDiffs(found)`: the cell's candidates that occur in
      `found`, in the cell's order. */
  function CandidateDiffs(c: Cell, found: seq<string>): (r: seq<string>)
    ensures IsSubseq(r, c.candidates)
    ensures forall v :: v in r <==> v in c.candidates && v in found
    ensures r == [] <==> forall v :: v in c.candidates ==> v !in found
  {
    FilterFacts(c.candidates, set v | v in found);
    TakenNone(c.candidates, set v | v in found);
    Taken(c.candidates, set v | v in found)
  }

  /** What the hinter would take from the cell at `l`. */
  function Diffs(b: Board, p: Part, l: Loc): seq<string>
    requires PartOn(b, p) && OnBoard(b, l)
  {
    CandidateDiffs(At(b, l).cell, Values(b, p))
  }

  /** No cell of the partition has, among its candidates, the value of a
      cell of the partition. */
  ghost predicate Settled(b: Board, p: Part)
    requires PartOn(b, p)
  {
    forall l, q :: l in p && q in p ==> At(b, q).cell.value !in CandidatesAt(b, l)
  }

  lemma SettledIff(b: Board, p: Part)
    requires PartOn(b, p)
    ensures Settled(b, p) <==> forall i :: 0 <= i < |p| ==> Diffs(b, p, p[i]) == []
  {
    ValuesFacts(b, p);
    if forall i :: 0 <= i < |p| ==> Diffs(b, p, p[i]) == [] {
      forall l, q | l in p && q in p ensures At(b, q).cell.value !in CandidatesAt(b, l) {
        var i :| 0 <= i < |p| && p[i] == l;
        assert At(b, q).cell.value in Values(b, p);
        assert Diffs(b, p, l) == [];
      }
    }
    if Settled(b, p) {
      forall i | 0 <= i < |p| ensures Diffs(b, p, p[i]) == [] {
        assert p[i] in p;
        forall v | v in Values(b, p) ensures v !in CandidatesAt(b, p[i]) {
          var q :| q in p && At(b, q).cell.value == v;
        }
      }
    }
  }

  /** `EliminatorFilledCell.PartitionHinter`: the first cell of the
      partition whose candidates meet the partition's values, with those
      candidates; no hint exactly when the partition is settled. It never
      fails. */
  method Hinter(b: Board, p: Part) returns (r: HintResult)
    requires PartOn(b, p)
    ensures !r.HintFailed?
    ensures r.Hinted? ==> exists i ::
      && 0 <= i < |p|
      && r.hint == Hint(p[i], Name, Diffs(b, p, p[i]))
      && Diffs(b, p, p[i]) != []
      && forall j :: 0 <= j < i ==> Diffs(b, p, p[j]) == []
    ensures r.NoHint? <==> Settled(b, p)
  {
    var found: seq<string> := [];
    var i := 0;
    while i < |p|
      invariant 0 <= i <= |p| && found == Values(b, p)[..i]
    {
      assert Values(b, p)[..i + 1] == Values(b, p)[..i] + [At(b, p[i]).cell.value];
      found := found + [At(b, p[i]).cell.value];
      i := i + 1;
    }
    assert found == Values(b, p);
    SettledIff(b, p);
    i := 0;
    while i < |p|
      invariant 0 <= i <= |p|
      invariant forall j :: 0 <= j < i ==> Diffs(b, p, p[j]) == []
    {
      var diffs := CandidateDiffs(At(b, p[i]).cell, found);
      if |diffs| > 0 {
        return Hinted(Hint(p[i], Name, diffs));
      }
      i := i + 1;
    }
    return NoHint;
  }

  /** Every candidate the rule takes is the value of a filled cell of the
      partition; on a well-formed board `RemoveCandiates` removes exactly
      the hinted list, and the cell is then settled against the partition. */
  lemma HintSound(b: Board, p: Part, l: Loc)
    requires PartOn(b, p) && l in p && WellFormed(b)
    ensures forall v :: v in Diffs(b, p, l) ==>
      v != "" && exists q :: q in p && At(b, q).cell.value == v
    ensures RemovedBy(At(b, l).cell, Diffs(b, p, l)) == Diffs(b, p, l)
    ensures forall q :: q in p ==>
      At(b, q).cell.value !in Removal(At(b, l).cell, Diffs(b, p, l)).candidates
  {
    var c := At(b, l).cell;
    var d := Diffs(b, p, l);
    ValuesFacts(b, p);
    assert CellOk(c);
    FilterFacts(c.candidates, set v | v in Values(b, p));
    FilterAgree(c.candidates, Requested(d), set v | v in Values(b, p));
    RemovalSpec(c, d);
  }

  /** Settledness survives any later deletion of candidates. */
  lemma SettledShrinks(b0: Board, b1: Board, p: Part)
    requires PartOn(b0, p) && Settled(b0, p) && Shrinks(b0, b1)
    ensures PartOn(b1, p) && Settled(b1, p)
  {
    forall l, q | l in p && q in p ensures At(b1, q).cell.value !in CandidatesAt(b1, l) {
      SubseqFacts(CandidatesAt(b1, l), CandidatesAt(b0, l));
    }
  }

  /** `EliminatorFilledCell.PartitionEliminator`: the hinter's finding, if
      any, applied to the game's board. */
  method Eliminate(g: Game, p: Part) returns (out: Outcome)
    requires PartOn(g.board, p)
    modifies g
    ensures !out.Failed?
    ensures out.Unchanged? <==> Settled(old(g.board), p)
    ensures out.Unchanged? ==> g.board == old(g.board)
    ensures out.Changed? ==>
      && out.loc in p
      && (exists i :: 0 <= i < |p| && p[i] == out.loc && forall j :: 0 <= j < i ==> Diffs(old(g.board), p, p[j]) == [])
      && out.removed == Diffs(old(g.board), p, out.loc) && out.removed != []
      && g.board == WithCell(old(g.board), out.loc, Removal(At(old(g.board), out.loc).cell, out.removed))
    ensures g.symbols == old(g.symbols) && g.lastFilled == old(g.lastFilled) && g.config == old(g.config)
  {
    var h := Hinter(g.board, p);
    out := ApplyHint(g, h);
  }
}
