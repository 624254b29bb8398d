/** The fixpoint helpers: `RemoveAllSimple` runs Filled Cell on every
    partition until it has nothing left to take, and `RemoveOneCandidate`
    walks the registry like the driver but only counts a change that
    really lowered the number of candidates. */
module Steps {
  import opened Seqs
  import opened Sudoku
  import opened Partitions
  import opened Hints
  import FilledCell
  import opened Driver

  // ----- counting candidates ---------------------------------------------------

  /** The board's candidates, counted row by row. */
  method CountCandidates(b: Board) returns (n: nat)
    ensures n == Total(b)
  {
    n := 0;
    for y := 0 to |b|
      invariant n == Total(b[..y])
    {
      assert b[..y + 1][..y] == b[..y];
      var row := b[y];
      var rowCount := 0;
      for x := 0 to |row|
        invariant rowCount == RowTotal(row[..x])
      {
        assert row[..x + 1][..x] == row[..x];
        rowCount := rowCount + |row[x].cell.candidates|;
      }
      assert row[..|row|] == row;
      n := n + rowCount;
    }
    assert b[..|b|] == b;
  }

  // ----- why Filled Cell's removals are sound -----------------------------------

  /** Two cells share a row, a column or a group. */
  ghost predicate Peer(b: Board, l: Loc, q: Loc)
    requires OnBoard(b, l) && OnBoard(b, q)
  {
    l.y == q.y || l.x == q.x || At(b, l).group == At(b, q).group
  }

  /** Every two cells of the partition are peers. */
  ghost predicate Cohesive(b: Board, p: Part) {
    PartOn(b, p) && forall l, q :: l in p && q in p ==> Peer(b, l, q)
  }

  /** Another cell among the peers of `l` holds the value `v`. */
  ghost predicate Seen(b: Board, l: Loc, v: string)
    requires OnBoard(b, l)
  {
    exists q :: OnBoard(b, q) && q != l && Peer(b, l, q) && At(b, q).cell.value == v
  }

  /** `b1` is `b0` with candidates deleted, and every candidate deleted is
      the value of a peer: the Sudoku rule itself. */
  ghost predicate Justified(b0: Board, b1: Board) {
    && Shrinks(b0, b1)
    && forall l, v :: OnBoard(b0, l) && v in CandidatesAt(b0, l) && v !in CandidatesAt(b1, l) ==> Seen(b0, l, v)
  }

  /** `b1` keeps every recent-removal list of `b0` as a prefix: markers are
      only appended to. */
  ghost predicate RecentKept(b0: Board, b1: Board) {
    && SameShape(b0, b1)
    && forall l :: OnBoard(b0, l) ==> At(b0, l).cell.recent <= At(b1, l).cell.recent
  }

  lemma RecentKeptTrans(b0: Board, b1: Board, b2: Board)
    requires RecentKept(b0, b1) && RecentKept(b1, b2)
    ensures RecentKept(b0, b2)
  {
    forall l | OnBoard(b0, l) ensures At(b0, l).cell.recent <= At(b2, l).cell.recent {
      assert OnBoard(b1, l);
    }
  }

  /** A removal appends to the cell's recent list and touches no other cell. */
  lemma RemovalKeepsRecent(b: Board, l: Loc, vs: seq<string>)
    requires OnBoard(b, l)
    ensures RecentKept(b, WithCell(b, l, Removal(At(b, l).cell, vs)))
  {
    WithCellFacts(b, l, Removal(At(b, l).cell, vs));
  }

  /** Every partition of the views is made of peers. */
  lemma SectionsCohesive(b: Board, n: nat)
    requires Fits(b, n)
    ensures forall v, i :: 0 <= i < |Select(Sectioned(b, n), v)| ==> Cohesive(b, Select(Sectioned(b, n), v)[i])
  {
    var s := Sectioned(b, n);
    SectionsCover(b, n, s);
    SectionsOn(b, n);
    forall v, i | 0 <= i < |Select(s, v)| ensures Cohesive(b, Select(s, v)[i]) {
      assert |Select(s, v)| == n;
    }
  }

  lemma JustifiedRefl(b: Board)
    ensures Justified(b, b)
  {
    ShrinksRefl(b);
  }

  /** Justified deletions compose. */
  lemma JustifiedTrans(b0: Board, b1: Board, b2: Board)
    requires Justified(b0, b1) && Justified(b1, b2)
    ensures Justified(b0, b2)
  {
    ShrinksTrans(b0, b1, b2);
    forall l, v | OnBoard(b0, l) && v in CandidatesAt(b0, l) && v !in CandidatesAt(b2, l)
      ensures Seen(b0, l, v)
    {
      if v in CandidatesAt(b1, l) {
        assert Seen(b1, l, v);
        var q :| OnBoard(b1, q) && q != l && Peer(b1, l, q) && At(b1, q).cell.value == v;
        assert OnBoard(b0, q);
      } else {
        SubseqFacts(CandidatesAt(b1, l), CandidatesAt(b0, l));
      }
    }
  }

  /** One Filled Cell removal on a partition of peers is justified. */
  lemma FilledStep(b: Board, p: Part, l: Loc)
    requires WellFormed(b) && Cohesive(b, p) && l in p
    ensures Justified(b, WithCell(b, l, Removal(At(b, l).cell, FilledCell.Diffs(b, p, l))))
    ensures Total(WithCell(b, l, Removal(At(b, l).cell, FilledCell.Diffs(b, p, l)))) + |FilledCell.Diffs(b, p, l)| == Total(b)
  {
    var c := At(b, l).cell;
    var d := FilledCell.Diffs(b, p, l);
    var b1 := WithCell(b, l, Removal(c, d));
    RemovalShrinks(b, l, d);
    FilledCell.HintSound(b, p, l);
    RemovalSpec(c, d);
    WithCellFacts(b, l, Removal(c, d));
    forall k, v | OnBoard(b, k) && v in CandidatesAt(b, k) && v !in CandidatesAt(b1, k)
      ensures Seen(b, k, v)
    {
      assert k == l;
      assert v in d;
      var q :| q in p && At(b, q).cell.value == v;
      assert CellOk(c);
      assert q != l;
    }
  }

  /** Clearing the recent markers deletes nothing. */
  lemma ClearRecentFacts(b: Board)
    ensures Justified(b, ClearRecent(b))
    ensures WellFormed(b) ==> WellFormed(ClearRecent(b))
    ensures Total(ClearRecent(b)) == Total(b)
    ensures forall l :: OnBoard(b, l) ==> At(ClearRecent(b), l).cell.recent == []
  {
    var r := ClearRecent(b);
    forall l | OnBoard(b, l) ensures IsSubseq(CandidatesAt(r, l), CandidatesAt(b, l)) {
      SubseqRefl(CandidatesAt(b, l));
    }
    assert Shrinks(b, r);
    TotalShrinks(b, r);
    if WellFormed(b) {
      ShrinksWellFormed(b, r);
    }
  }

  // ----- RemoveAllSimple -----------------------------------------------------------

  /** Every partition before partition `i` of view `v` is settled. */
  ghost predicate SettledUpTo(b: Board, s: Sections, v: View, i: nat) {
    forall v', i': nat :: i' < |Select(s, v')| && Earlier(v', i', v, i) && PartOn(b, Select(s, v')[i']) ==>
      FilledCell.Settled(b, Select(s, v')[i'])
  }

  lemma SettledUpToShrinks(b0: Board, b1: Board, s: Sections, v: View, i: nat)
    requires SettledUpTo(b0, s, v, i) && Shrinks(b0, b1)
    ensures SettledUpTo(b1, s, v, i)
  {
    forall v', i': nat | i' < |Select(s, v')| && Earlier(v', i', v, i) && PartOn(b1, Select(s, v')[i'])
      ensures FilledCell.Settled(b1, Select(s, v')[i'])
    {
      assert PartOn(b0, Select(s, v')[i']);
      FilledCell.SettledShrinks(b0, b1, Select(s, v')[i']);
    }
  }

  lemma SettledUpToStep(b: Board, s: Sections, v: View, i: nat)
    requires SettledUpTo(b, s, v, i) && i < |Select(s, v)|
    requires PartOn(b, Select(s, v)[i]) ==> FilledCell.Settled(b, Select(s, v)[i])
    ensures SettledUpTo(b, s, v, i + 1)
  {
  }

  lemma SettledViewDone(b: Board, s: Sections, k: nat)
    requires k < 3 && SettledUpTo(b, s, ViewAt(k), |Select(s, ViewAt(k))|)
    ensures k < 2 ==> SettledUpTo(b, s, ViewAt(k + 1), 0)
    ensures k == 2 ==> forall v, i: nat :: i < |Select(s, v)| && PartOn(b, Select(s, v)[i]) ==>
      FilledCell.Settled(b, Select(s, v)[i])
  {
  }

  /** Filled Cell on one partition, hint after hint, until it has nothing
      left to take there. */
  method SettlePartition(g: Game, p: Part, ghost b0: Board)
    requires Cohesive(g.board, p) && WellFormed(g.board) && Justified(b0, g.board)
    modifies g
    ensures g.symbols == old(g.symbols) && g.lastFilled == old(g.lastFilled) && g.config == old(g.config)
    ensures Justified(old(g.board), g.board) && Justified(b0, g.board) && WellFormed(g.board)
    ensures PartOn(g.board, p) && FilledCell.Settled(g.board, p)
    ensures RecentKept(old(g.board), g.board)
  {
    ghost var start := g.board;
    JustifiedRefl(start);
    var done := false;
    while !done
      invariant g.symbols == old(g.symbols) && g.lastFilled == old(g.lastFilled) && g.config == old(g.config)
      invariant Justified(start, g.board) && Justified(b0, g.board) && WellFormed(g.board)
      invariant Cohesive(g.board, p) && RecentKept(start, g.board)
      invariant done ==> FilledCell.Settled(g.board, p)
      decreases Total(g.board) + if done then 0 else 1
    {
      var h := FilledCell.Hinter(g.board, p);
      if h.NoHint? {
        done := true;
      } else {
        ghost var b := g.board;
        ghost var i :| 0 <= i < |p| && h.hint == Hint(p[i], FilledCell.Name, FilledCell.Diffs(b, p, p[i]))
          && FilledCell.Diffs(b, p, p[i]) != [];
        var _ := g.RemoveCandidates(h.hint.loc, h.hint.toRemove);
        SettleStep(start, b0, b, p, i);
        RemovalKeepsRecent(b, p[i], h.hint.toRemove);
        RecentKeptTrans(start, b, g.board);
      }
    }
  }

  /** One pass of `SettlePartition`'s loop keeps its invariant and lowers
      the candidate count. */
  lemma SettleStep(start: Board, b0: Board, b: Board, p: Part, i: nat)
    requires Cohesive(b, p) && WellFormed(b) && Justified(start, b) && Justified(b0, b)
    requires i < |p| && FilledCell.Diffs(b, p, p[i]) != []
    ensures var b1 := WithCell(b, p[i], Removal(At(b, p[i]).cell, FilledCell.Diffs(b, p, p[i])));
      && Justified(start, b1) && Justified(b0, b1) && WellFormed(b1) && Cohesive(b1, p)
      && Total(b1) < Total(b)
  {
    var b1 := WithCell(b, p[i], Removal(At(b, p[i]).cell, FilledCell.Diffs(b, p, p[i])));
    FilledStep(b, p, p[i]);
    JustifiedTrans(start, b, b1);
    JustifiedTrans(b0, b, b1);
    RemovalShrinks(b, p[i], FilledCell.Diffs(b, p, p[i]));
    ShrinksPartOn(b, b1, p);
    forall l, q | l in p && q in p ensures Peer(b1, l, q) {
      assert Peer(b, l, q);
    }
  }

  /** `Game.RemoveAllSimple`: Filled Cell on every row, then every column,
      then every group, each repeated until it has nothing left to take;
      afterwards the recent markers are cleared when asked. Every deleted
      candidate is the value of a peer, and every partition ends settled.
      Filled Cell's hinter never fails, so the error return is not
      modelled. */
  method RemoveAllSimple(g: Game, clearRecent: bool)
    requires Fits(g.board, |g.symbols|) && WellFormed(g.board)
    modifies g
    ensures g.symbols == old(g.symbols) && g.lastFilled == old(g.lastFilled) && g.config == old(g.config)
    ensures Justified(old(g.board), g.board) && WellFormed(g.board)
    ensures forall v, i: nat :: i < |Select(Sectioned(old(g.board), |g.symbols|), v)| ==>
      && PartOn(g.board, Select(Sectioned(old(g.board), |g.symbols|), v)[i])
      && FilledCell.Settled(g.board, Select(Sectioned(old(g.board), |g.symbols|), v)[i])
    ensures clearRecent ==> forall l :: OnBoard(g.board, l) ==> At(g.board, l).cell.recent == []
    ensures !clearRecent ==> RecentKept(old(g.board), g.board)
  {
    ghost var b0 := g.board;
    var sections := GetSectionedCells(g.board, |g.symbols|);
    SectionsUnique(b0, |g.symbols|, sections);
    SectionsOn(b0, |g.symbols|);
    SectionsCohesive(b0, |g.symbols|);
    JustifiedRefl(b0);
    for k := 0 to 3
      invariant g.symbols == old(g.symbols) && g.lastFilled == old(g.lastFilled) && g.config == old(g.config)
      invariant Justified(b0, g.board) && WellFormed(g.board) && RecentKept(b0, g.board)
      invariant k < 3 ==> SettledUpTo(g.board, sections, ViewAt(k), 0)
      invariant k == 3 ==> forall v, i: nat :: i < |Select(sections, v)| && PartOn(g.board, Select(sections, v)[i]) ==>
        FilledCell.Settled(g.board, Select(sections, v)[i])
    {
      var v := ViewAt(k);
      var parts := Select(sections, v);
      for i := 0 to |parts|
        invariant g.symbols == old(g.symbols) && g.lastFilled == old(g.lastFilled) && g.config == old(g.config)
        invariant Justified(b0, g.board) && WellFormed(g.board) && RecentKept(b0, g.board)
        invariant SettledUpTo(g.board, sections, v, i)
      {
        ghost var b := g.board;
        assert Cohesive(b0, parts[i]);
        forall l, q | l in parts[i] && q in parts[i] ensures Peer(b, l, q) {
          assert Peer(b0, l, q);
        }
        SettlePartition(g, parts[i], b0);
        RecentKeptTrans(b0, b, g.board);
        SettledUpToShrinks(b, g.board, sections, v, i);
        SettledUpToStep(g.board, sections, v, i);
      }
      SettledViewDone(g.board, sections, k);
    }
    forall v, i: nat | i < |Select(sections, v)| ensures PartOn(g.board, Select(sections, v)[i]) {
      ShrinksPartOn(b0, g.board, Select(sections, v)[i]);
    }
    if clearRecent {
      ghost var b := g.board;
      g.RemoveAllRecentCandidates();
      ClearRecentFacts(b);
      JustifiedTrans(b0, b, g.board);
      forall v, i: nat | i < |Select(sections, v)|
        ensures PartOn(g.board, Select(sections, v)[i]) && FilledCell.Settled(g.board, Select(sections, v)[i])
      {
        ShrinksPartOn(b, g.board, Select(sections, v)[i]);
        FilledCell.SettledShrinks(b, g.board, Select(sections, v)[i]);
      }
    }
  }

  // ----- RemoveOneCandidate ---------------------------------------------------------

  /** The board `RemoveOneCandidate` searches: the old one, with the recent
      markers cleared when asked. */
  function Cleared(b: Board, clearRecent: bool): Board {
    if clearRecent then ClearRecent(b) else b
  }

  /** Some cell of `p` that had candidates before now has a different
      number of them. */
  predicate Dropped(before: Board, after: Board, p: Part)
    requires PartOn(before, p) && PartOn(after, p)
  {
    exists j :: 0 <= j < |p| && |CandidatesAt(before, p[j])| > 0 &&
      |CandidatesAt(before, p[j])| != |CandidatesAt(after, p[j])|
  }

  /** The check `RemoveOneCandidate` makes after a partition eliminator
      reports a change. */
  method CheckDropped(before: Board, after: Board, p: Part) returns (found: bool)
    requires PartOn(before, p) && PartOn(after, p)
    ensures found <==> Dropped(before, after, p)
  {
    found := false;
    for j := 0 to |p|
      invariant !found
      invariant forall j' :: 0 <= j' < j ==>
        !(|CandidatesAt(before, p[j'])| > 0 && |CandidatesAt(before, p[j'])| != |CandidatesAt(after, p[j'])|)
    {
      var n := |CandidatesAt(before, p[j])|;
      if n > 0 && n != |CandidatesAt(after, p[j])| {
        return true;
      }
    }
  }

  /** A removal that changed the number of candidates at some cell lowered
      the board's total. */
  lemma DroppedLowers(b0: Board, b1: Board, l: Loc, q: Loc)
    requires Applied(b0, b1, l) && OnBoard(b0, q)
    requires |CandidatesAt(b0, q)| != |CandidatesAt(b1, q)|
    ensures Total(b1) < Total(b0)
  {
    var vs :| b1 == WithCell(b0, l, Removal(At(b0, l).cell, vs));
    var c := At(b0, l).cell;
    WithCellFacts(b0, l, Removal(c, vs));
    RemovalSpec(c, vs);
    AppliedFacts(b0, b1, l, vs);
  }

  /** A removal that left the cell's candidate count as it was changed
      nothing at all. */
  lemma UndroppedSame(b0: Board, b1: Board, l: Loc)
    requires Applied(b0, b1, l)
    requires |CandidatesAt(b0, l)| == 0 || |CandidatesAt(b0, l)| == |CandidatesAt(b1, l)|
    ensures b1 == b0
  {
    var vs :| b1 == WithCell(b0, l, Removal(At(b0, l).cell, vs));
    var c := At(b0, l).cell;
    WithCellFacts(b0, l, Removal(c, vs));
    RemovalSpec(c, vs);
    assert RemovedBy(c, vs) == [];
    assert Removal(c, vs) == c;
    assert b0[l.y][l.x].(cell := c) == b0[l.y][l.x];
    assert b0[l.y][l.x := b0[l.y][l.x]] == b0[l.y];
  }

  /** One partition eliminator on one partition, as `RemoveOneCandidate`
      runs it: the step counts only when a cell that had candidates lost
      some, and otherwise the board is as before. */
  method TryPart(g: Game, r: Rule, m: Matcher, p: Part) returns (out: Outcome, dropped: bool)
    requires PartOn(g.board, p) && OnPartitions(r) && MatcherOk(m)
    modifies g
    ensures g.symbols == old(g.symbols) && g.lastFilled == old(g.lastFilled) && g.config == old(g.config)
    ensures !dropped ==> g.board == old(g.board)
    ensures dropped ==>
      && out.Changed? && out.loc in p && Applied(old(g.board), g.board, out.loc)
      && Total(g.board) < Total(old(g.board))
    ensures out.Failed? ==> !dropped && r == MatchingRule && m.hint(old(g.board), p) == HintFailed(out.err)
    ensures !out.Failed? && !dropped && WellFormed(old(g.board)) && Honest(m) ==> PartQuiet(r, m, old(g.board), p)
    ensures WellFormed(old(g.board)) ==> WellFormed(g.board)
  {
    var b := g.board;
    out := RunOnPart(g, r, m, p);
    dropped := false;
    if out.Changed? {
      ShrinksPartOn(b, g.board, p);
      dropped := CheckDropped(b, g.board, p);
      if dropped {
        ghost var j :| 0 <= j < |p| && |CandidatesAt(b, p[j])| > 0 && |CandidatesAt(b, p[j])| != |CandidatesAt(g.board, p[j])|;
        DroppedLowers(b, g.board, out.loc, p[j]);
      } else {
        ghost var j :| 0 <= j < |p| && p[j] == out.loc;
        UndroppedSame(b, g.board, out.loc);
      }
    }
  }

  /** One eliminator over every partition of every view, as
      `RemoveOneCandidate` runs it: on to the next partition after a change
      that removed nothing. */
  method TryAllParts(g: Game, r: Rule, m: Matcher, sections: Sections, ghost n: nat)
    returns (dropped: bool, err: Option<string>)
    requires OnPartitions(r) && MatcherOk(m) && Fits(g.board, n) && sections == Sectioned(g.board, n)
    modifies g
    ensures g.symbols == old(g.symbols) && g.lastFilled == old(g.lastFilled) && g.config == old(g.config)
    ensures !dropped ==> g.board == old(g.board)
    ensures dropped ==> err.None? && exists l :: Applied(old(g.board), g.board, l) && Total(g.board) < Total(old(g.board))
    ensures err.Some? ==> !dropped && r == MatchingRule && exists v, i: nat, e ::
      && i < |Select(sections, v)|
      && m.hint(old(g.board), Select(sections, v)[i]) == HintFailed(e)
      && err.value == Wrapped(r, m, v, i, e)
    ensures !dropped && err.None? && WellFormed(old(g.board)) && Honest(m) ==> RuleQuiet(r, m, old(g.board), sections)
    ensures WellFormed(old(g.board)) ==> WellFormed(g.board)
  {
    ghost var b := g.board;
    SectionsOn(b, n);
    for k := 0 to 3
      invariant g.board == b && g.symbols == old(g.symbols) && g.lastFilled == old(g.lastFilled) && g.config == old(g.config)
      invariant k < 3 && WellFormed(b) && Honest(m) ==> QuietUpTo(r, m, b, sections, ViewAt(k), 0)
      invariant k == 3 && WellFormed(b) && Honest(m) ==> RuleQuiet(r, m, b, sections)
    {
      var v := ViewAt(k);
      var parts := Select(sections, v);
      for i := 0 to |parts|
        invariant g.board == b && g.symbols == old(g.symbols) && g.lastFilled == old(g.lastFilled) && g.config == old(g.config)
        invariant WellFormed(b) && Honest(m) ==> QuietUpTo(r, m, b, sections, v, i)
      {
        var out, d := TryPart(g, r, m, parts[i]);
        if d {
          return true, None;
        }
        if out.Failed? {
          return false, Some(Wrapped(r, m, v, i, out.err));
        }
        if WellFormed(b) && Honest(m) {
          QuietUpToStep(r, m, b, sections, v, i);
        }
      }
      if WellFormed(b) && Honest(m) {
        QuietViewDone(r, m, b, sections, k);
      }
    }
    return false, None;
  }

  /** The registry walk of `RemoveOneCandidate`, on the board as it is. */
  method TryRegistry(g: Game, reg: seq<Rule>, m: Matcher, sections: Sections)
    returns (ok: bool, err: Option<string>)
    requires Fits(g.board, |g.symbols|) && MatcherOk(m) && sections == Sectioned(g.board, |g.symbols|)
    modifies g
    ensures g.symbols == old(g.symbols) && g.lastFilled == old(g.lastFilled) && g.config == old(g.config)
    ensures !ok ==> g.board == old(g.board)
    ensures ok ==> err.None? && exists l :: Applied(old(g.board), g.board, l) && Total(g.board) < Total(old(g.board))
    ensures err.Some? ==> !ok && exists n0, v, i: nat, e ::
      && 0 <= n0 < |reg| && reg[n0] == MatchingRule
      && i < |Select(sections, v)|
      && m.hint(old(g.board), Select(sections, v)[i]) == HintFailed(e)
      && err.value == Wrapped(MatchingRule, m, v, i, e)
    ensures !ok && err.None? && WellFormed(old(g.board)) && Honest(m) ==> QuietBefore(reg, m, false, old(g.board), sections, |reg|)
    ensures WellFormed(old(g.board)) ==> WellFormed(g.board)
  {
    ghost var b := g.board;
    for n0 := 0 to |reg|
      invariant g.board == b && g.symbols == old(g.symbols) && g.lastFilled == old(g.lastFilled) && g.config == old(g.config)
      invariant WellFormed(b) && Honest(m) ==> QuietBefore(reg, m, false, b, sections, n0)
    {
      var r := reg[n0];
      if OnPartitions(r) {
        var dropped, e := TryAllParts(g, r, m, sections, |g.symbols|);
        if dropped {
          return true, None;
        }
        if e.Some? {
          return false, e;
        }
      } else {
        var before := CountCandidates(g.board);
        var out := RunOnGame(g, r);
        if out.Changed? {
          var after := CountCandidates(g.board);
          if after < before {
            return true, None;
          }
        }
      }
      if WellFormed(b) && Honest(m) {
        QuietBeforeStep(reg, m, false, b, sections, n0);
      }
    }
    return false, None;
  }

  /** `Game.RemoveOneCandidate`: clears the recent markers when asked, then
      tries every eliminator of the registry in order, partition
      eliminators on every row, column and group, and stops at the first
      change that really lowered the number of candidates. A matcher error
      is returned wrapped with the rule, the view and the index; when
      nothing was removed the board is the cleared board and, on a
      well-formed board with an honest matcher, every eliminator had
      nothing to do on it. */
  method RemoveOneCandidate(g: Game, reg: seq<Rule>, m: Matcher, clearRecent: bool)
    returns (ok: bool, err: Option<string>)
    requires Fits(g.board, |g.symbols|) && MatcherOk(m)
    modifies g
    ensures g.symbols == old(g.symbols) && g.lastFilled == old(g.lastFilled) && g.config == old(g.config)
    ensures !ok ==> g.board == Cleared(old(g.board), clearRecent)
    ensures ok ==> err.None? && exists l ::
      Applied(Cleared(old(g.board), clearRecent), g.board, l) && Total(g.board) < Total(old(g.board))
    ensures err.Some? ==> !ok && exists n0, v, i: nat, e ::
      && 0 <= n0 < |reg| && reg[n0] == MatchingRule
      && i < |Select(Sectioned(old(g.board), |g.symbols|), v)|
      && m.hint(Cleared(old(g.board), clearRecent), Select(Sectioned(old(g.board), |g.symbols|), v)[i]) == HintFailed(e)
      && err.value == Wrapped(MatchingRule, m, v, i, e)
    ensures !ok && err.None? && WellFormed(old(g.board)) && Honest(m) ==>
      QuietBefore(reg, m, false, g.board, Sectioned(old(g.board), |g.symbols|), |reg|)
    ensures WellFormed(old(g.board)) ==> WellFormed(g.board)
  {
    ghost var b0 := g.board;
    if clearRecent {
      g.RemoveAllRecentCandidates();
    }
    ClearRecentFacts(b0);
    ghost var b := g.board;
    assert b == Cleared(b0, clearRecent);
    assert SameLayout(b0, b);
    LayoutFits(b0, b, |g.symbols|);
    var sections := GetSectionedCells(g.board, |g.symbols|);
    SectionsUnique(b, |g.symbols|, sections);
    SectionsSameLayout(b0, b, |g.symbols|);
    TotalShrinks(b0, b);
    ok, err := TryRegistry(g, reg, m, sections);
  }
}
