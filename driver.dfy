/** `EliminateCandidates`: the elimination driver. It walks the eliminator
    registry in order; a partition eliminator is tried on rows, then
    columns, then groups, each by ascending index, and a game eliminator
    on the whole game. The first change reported ends the walk. */
module Driver {
  import opened Seqs
  import opened Sudoku
  import opened Partitions
  import opened Hints
  import FilledCell
  import UniqueCandidate
  import GroupRowColumn
  import CandidateChains
  import Choices
  import FistemafelRing

  /** The eliminators of the library. */
  datatype Rule =
    | FilledCellRule
    | UniqueCandidateRule
    | MatchingRule
    | GroupRowColumnRule
    | CandidateChainsRule
    | FistemafelRingRule

  /** Matching Candidates is not part of this model: its partition hinter
      and its `Simple` flag are given. */
  datatype Matcher = Matcher(hint: (Board, Part) -> HintResult, simple: bool)

  /** What the driver reports: a change found by an eliminator (on a
      partition of a view, or on the game), a change made by a simple
      eliminator while simple changes are hidden (the empty change), or an
      error. */
  datatype Report =
    | Progress(rule: Rule, at: Option<(View, nat)>, loc: Loc, removed: seq<string>)
    | Hidden(rule: Rule, place: (View, nat), loc: Loc)
    | Fail(msg: string)

  /** The registry as the driver ships it. */
  const Registry: seq<Rule> := [FilledCellRule, UniqueCandidateRule, MatchingRule, GroupRowColumnRule]

  const NoneEliminated := "no candidates eliminated by any rules"

  function RuleName(r: Rule, m: Matcher): string {
    match r
    case FilledCellRule => FilledCell.Name
    case UniqueCandidateRule => UniqueCandidate.Name
    case MatchingRule => "Matching Candidates"
    case GroupRowColumnRule => GroupRowColumn.Name
    case CandidateChainsRule => CandidateChains.Name
    case FistemafelRingRule => FistemafelRing.Name
  }

  /** The eliminators marked `Simple`. */
  predicate Simple(r: Rule, m: Matcher) {
    match r
    case FilledCellRule => true
    case UniqueCandidateRule => true
    case MatchingRule => m.simple
    case _ => false
  }

  /** The eliminators that work on one partition at a time; the others
      work on the whole game. */
  predicate OnPartitions(r: Rule) {
    !r.GroupRowColumnRule? && !r.FistemafelRingRule?
  }

  /** Whether the driver tries `r` at all. */
  predicate Active(r: Rule, m: Matcher, onlySimples: bool) {
    !onlySimples || Simple(r, m)
  }

  function ViewName(v: View): string {
    match v
    case Rows => "rows"
    case Cols => "cols"
    case Groups => "groups"
  }

  function ViewIndex(v: View): nat {
    match v
    case Rows => 0
    case Cols => 1
    case Groups => 2
  }

  function ViewAt(k: nat): View
    requires k < 3
  {
    if k == 0 then Rows else if k == 1 then Cols else Groups
  }

  /** The error text for a failure of `r` on partition `i` of view `v`. */
  function Wrapped(r: Rule, m: Matcher, v: View, i: nat, err: string): string {
    "(" + (RuleName(r, m) + ") " + ViewName(v) + " " + Itoa(i) + ": " + err)
  }

  /** A wrapped error is never the "nothing eliminated" error. */
  lemma WrappedIsNotNone(r: Rule, m: Matcher, v: View, i: nat, err: string)
    ensures Wrapped(r, m, v, i, err) != NoneEliminated
  {
    assert Wrapped(r, m, v, i, err)[0] == '(';
    assert NoneEliminated[0] == 'n';
  }

  /** The matcher's hints name a cell of the partition it was given. */
  ghost predicate MatcherOk(m: Matcher) {
    forall b, p :: PartOn(b, p) && m.hint(b, p).Hinted? ==> m.hint(b, p).hint.loc in p
  }

  /** The matcher only hints when, on a well-formed board, the hinted cell
      really loses something. */
  ghost predicate Honest(m: Matcher) {
    forall b, p :: PartOn(b, p) && WellFormed(b) && m.hint(b, p).Hinted? && m.hint(b, p).hint.loc in p ==>
      RemovedBy(At(b, m.hint(b, p).hint.loc).cell, m.hint(b, p).hint.toRemove) != []
  }

  /** `r` has nothing to do on partition `p`. */
  ghost predicate PartQuiet(r: Rule, m: Matcher, b: Board, p: Part)
    requires PartOn(b, p)
  {
    match r
    case FilledCellRule => FilledCell.Settled(b, p)
    case UniqueCandidateRule => forall j :: 0 <= j < |p| ==> UniqueCandidate.Exempt(b, p, p[j])
    case MatchingRule => m.hint(b, p).NoHint?
    case CandidateChainsRule => forall size: nat :: 2 <= size ==> CandidateChains.SizeQuiet(b, p, size)
    case _ => true
  }

  /** `r` has nothing to do on the game. */
  ghost predicate GameQuiet(r: Rule, b: Board) {
    match r
    case GroupRowColumnRule =>
      forall l :: OnBoard(b, l) ==>
        GroupRowColumn.Quiet(b, GroupRowColumn.Row, l) && GroupRowColumn.Quiet(b, GroupRowColumn.Col, l)
    case FistemafelRingRule => FistemafelRing.Idle(b, FistemafelRing.Sets())
    case _ => true
  }

  /** Partition `i'` of view `v'` comes before partition `i` of view `v`. */
  predicate Earlier(v': View, i': nat, v: View, i: nat) {
    ViewIndex(v') < ViewIndex(v) || (v' == v && i' < i)
  }

  /** `r` has nothing to do on any partition before partition `i` of view
      `v`. */
  ghost predicate QuietUpTo(r: Rule, m: Matcher, b: Board, s: Sections, v: View, i: nat) {
    forall v', i': nat :: i' < |Select(s, v')| && Earlier(v', i', v, i) && PartOn(b, Select(s, v')[i']) ==>
      PartQuiet(r, m, b, Select(s, v')[i'])
  }

  /** `r` has nothing to do anywhere. */
  ghost predicate RuleQuiet(r: Rule, m: Matcher, b: Board, s: Sections) {
    && (forall v, i: nat :: i < |Select(s, v)| && PartOn(b, Select(s, v)[i]) ==> PartQuiet(r, m, b, Select(s, v)[i]))
    && GameQuiet(r, b)
  }

  /** Every eliminator the driver tries before position `n0` of the
      registry has nothing to do. */
  ghost predicate QuietBefore(reg: seq<Rule>, m: Matcher, onlySimples: bool, b: Board, s: Sections, n0: int)
    requires 0 <= n0 <= |reg|
  {
    forall n' :: 0 <= n' < n0 && Active(reg[n'], m, onlySimples) ==> RuleQuiet(reg[n'], m, b, s)
  }

  /** The registry entry `n0` is `r`, the driver tries it, every eliminator
      before it was quiet, and — for a partition eliminator found at
      partition `at` — `r` was quiet on every earlier partition. */
  ghost predicate ReachedAt(reg: seq<Rule>, m: Matcher, onlySimples: bool, b: Board, s: Sections,
                            n0: int, r: Rule, at: Option<(View, nat)>) {
    && 0 <= n0 < |reg| && reg[n0] == r && Active(r, m, onlySimples)
    && QuietBefore(reg, m, onlySimples, b, s, n0)
    && (at.Some? <==> OnPartitions(r))
    && (at.Some? ==> at.value.1 < |Select(s, at.value.0)| && QuietUpTo(r, m, b, s, at.value.0, at.value.1))
  }

  /** `b1` is `b0` with the cell at `l` asked to drop some candidates. */
  ghost predicate Applied(b0: Board, b1: Board, l: Loc) {
    OnBoard(b0, l) && exists vs :: b1 == WithCell(b0, l, Removal(At(b0, l).cell, vs))
  }

  /** What one removal does to the board as a whole. */
  lemma AppliedFacts(b0: Board, b1: Board, l: Loc, vs: seq<string>)
    requires OnBoard(b0, l) && b1 == WithCell(b0, l, Removal(At(b0, l).cell, vs))
    ensures Applied(b0, b1, l) && Shrinks(b0, b1)
    ensures WellFormed(b0) ==> WellFormed(b1)
    ensures RemovedBy(At(b0, l).cell, vs) != [] ==> Total(b1) < Total(b0)
  {
    RemovalShrinks(b0, l, vs);
  }

  /** What running partition eliminator `r` on `p` may do to board `b0`,
      giving `b1` and `out`. */
  ghost predicate PartResult(r: Rule, m: Matcher, b0: Board, b1: Board, p: Part, out: Outcome)
    requires PartOn(b0, p) && OnPartitions(r)
  {
    && (!out.Changed? ==> b1 == b0)
    && (out.Unchanged? ==> PartQuiet(r, m, b0, p))
    && (out.Failed? ==> r == MatchingRule && m.hint(b0, p) == HintFailed(out.err))
    && (out.Changed? ==> out.loc in p && Applied(b0, b1, out.loc) && Shrinks(b0, b1))
    && (WellFormed(b0) ==> WellFormed(b1))
    && (out.Changed? && WellFormed(b0) && Honest(m) ==> Total(b1) < Total(b0))
  }

  method RunFilledCell(g: Game, m: Matcher, p: Part) returns (out: Outcome)
    requires PartOn(g.board, p)
    modifies g
    ensures g.symbols == old(g.symbols) && g.lastFilled == old(g.lastFilled) && g.config == old(g.config)
    ensures PartResult(FilledCellRule, m, old(g.board), g.board, p, out)
  {
    ghost var b0 := g.board;
    out := FilledCell.Eliminate(g, p);
    if out.Changed? {
      AppliedFacts(b0, g.board, out.loc, out.removed);
      if WellFormed(b0) {
        FilledCell.HintSound(b0, p, out.loc);
      }
    }
  }

  method RunUniqueCandidate(g: Game, m: Matcher, p: Part) returns (out: Outcome)
    requires PartOn(g.board, p)
    modifies g
    ensures g.symbols == old(g.symbols) && g.lastFilled == old(g.lastFilled) && g.config == old(g.config)
    ensures PartResult(UniqueCandidateRule, m, old(g.board), g.board, p, out)
  {
    ghost var b0 := g.board;
    out := UniqueCandidate.Eliminate(g, p);
    if out.Changed? {
      ghost var i, v, vs :| UniqueCandidate.ActsAt(b0, p, i, v, vs) && p[i] == out.loc
        && g.board == WithCell(b0, out.loc, Removal(At(b0, out.loc).cell, vs));
      AppliedFacts(b0, g.board, out.loc, vs);
    }
  }

  method RunMatching(g: Game, m: Matcher, p: Part) returns (out: Outcome)
    requires PartOn(g.board, p) && MatcherOk(m)
    modifies g
    ensures g.symbols == old(g.symbols) && g.lastFilled == old(g.lastFilled) && g.config == old(g.config)
    ensures PartResult(MatchingRule, m, old(g.board), g.board, p, out)
  {
    ghost var b0 := g.board;
    var h := m.hint(g.board, p);
    out := ApplyHint(g, h);
    if out.Changed? {
      AppliedFacts(b0, g.board, out.loc, h.hint.toRemove);
    }
  }

  method RunCandidateChains(g: Game, m: Matcher, p: Part) returns (out: Outcome)
    requires PartOn(g.board, p)
    modifies g
    ensures g.symbols == old(g.symbols) && g.lastFilled == old(g.lastFilled) && g.config == old(g.config)
    ensures PartResult(CandidateChainsRule, m, old(g.board), g.board, p, out)
  {
    ghost var b0 := g.board;
    out := CandidateChains.Eliminate(g, p);
    if out.Changed? {
      ghost var size, ci, j, vs :|
        && 2 <= size <= |CandidateChains.MultiCells(b0, p)|
        && 0 <= ci < |Choices.Combinations(CandidateChains.MultiCells(b0, p), size)|
        && CandidateChains.ChainFires(b0, p, Choices.Combinations(CandidateChains.MultiCells(b0, p), size)[ci], j, vs)
        && p[j] == out.loc
        && g.board == WithCell(b0, out.loc, Removal(At(b0, out.loc).cell, vs));
      AppliedFacts(b0, g.board, out.loc, vs);
    }
  }

  /** One partition eliminator on one partition. */
  method RunOnPart(g: Game, r: Rule, m: Matcher, p: Part) returns (out: Outcome)
    requires PartOn(g.board, p) && OnPartitions(r) && MatcherOk(m)
    modifies g
    ensures g.symbols == old(g.symbols) && g.lastFilled == old(g.lastFilled) && g.config == old(g.config)
    ensures !out.Changed? ==> g.board == old(g.board)
    ensures out.Unchanged? ==> PartQuiet(r, m, old(g.board), p)
    ensures out.Failed? ==> r == MatchingRule && m.hint(old(g.board), p) == HintFailed(out.err)
    ensures out.Changed? ==> out.loc in p && Applied(old(g.board), g.board, out.loc) && Shrinks(old(g.board), g.board)
    ensures WellFormed(old(g.board)) ==> WellFormed(g.board)
    ensures out.Changed? && WellFormed(old(g.board)) && Honest(m) ==> Total(g.board) < Total(old(g.board))
  {
    match r
    case FilledCellRule =>
      out := RunFilledCell(g, m, p);
    case UniqueCandidateRule =>
      out := RunUniqueCandidate(g, m, p);
    case MatchingRule =>
      out := RunMatching(g, m, p);
    case CandidateChainsRule =>
      out := RunCandidateChains(g, m, p);
  }

  /** One game eliminator on the game. */
  method RunOnGame(g: Game, r: Rule) returns (out: Outcome)
    requires !OnPartitions(r)
    modifies g
    ensures g.symbols == old(g.symbols) && g.lastFilled == old(g.lastFilled) && g.config == old(g.config)
    ensures !out.Failed?
    ensures out.Unchanged? ==> g.board == old(g.board) && GameQuiet(r, old(g.board))
    ensures out.Changed? ==>
      && Applied(old(g.board), g.board, out.loc) && Shrinks(old(g.board), g.board)
      && Total(g.board) < Total(old(g.board))
    ensures WellFormed(old(g.board)) ==> WellFormed(g.board)
  {
    ghost var b0 := g.board;
    if r.GroupRowColumnRule? {
      out := GroupRowColumn.Eliminate(g);
      if out.Changed? {
        ghost var vs, grp :|
          && OnBoard(b0, out.loc)
          && (GroupRowColumn.Fires(b0, GroupRowColumn.Row, out.loc, grp, vs) ||
              (GroupRowColumn.Quiet(b0, GroupRowColumn.Row, out.loc) && GroupRowColumn.Fires(b0, GroupRowColumn.Col, out.loc, grp, vs)))
          && g.board == WithCell(b0, out.loc, Removal(At(b0, out.loc).cell, vs));
        AppliedFacts(b0, g.board, out.loc, vs);
      }
    } else {
      out := FistemafelRing.Eliminate(g);
      if out.Changed? {
        ghost var k, i, j, vs :|
          && FistemafelRing.Fires(b0, FistemafelRing.Sets(), k, i, j, vs)
          && FistemafelRing.Present(b0, FistemafelRing.Sets()[i])[j] == out.loc
          && g.board == WithCell(b0, out.loc, Removal(At(b0, out.loc).cell, vs));
        AppliedFacts(b0, g.board, out.loc, vs);
      }
    }
  }

  /** One more quiet partition extends the quiet prefix. */
  lemma QuietUpToStep(r: Rule, m: Matcher, b: Board, s: Sections, v: View, i: nat)
    requires QuietUpTo(r, m, b, s, v, i) && i < |Select(s, v)|
    requires PartOn(b, Select(s, v)[i]) ==> PartQuiet(r, m, b, Select(s, v)[i])
    ensures QuietUpTo(r, m, b, s, v, i + 1)
  {
  }

  /** A view done means the next view starts quiet, and the last view
      done means `r` is quiet on every partition. */
  lemma QuietViewDone(r: Rule, m: Matcher, b: Board, s: Sections, k: nat)
    requires k < 3 && QuietUpTo(r, m, b, s, ViewAt(k), |Select(s, ViewAt(k))|)
    ensures k < 2 ==> QuietUpTo(r, m, b, s, ViewAt(k + 1), 0)
    ensures k == 2 ==> forall v', i': nat :: i' < |Select(s, v')| && PartOn(b, Select(s, v')[i']) ==>
      PartQuiet(r, m, b, Select(s, v')[i'])
  {
  }

  /** One more quiet (or skipped) eliminator extends the quiet prefix of
      the registry. */
  lemma QuietBeforeStep(reg: seq<Rule>, m: Matcher, onlySimples: bool, b: Board, s: Sections, n0: int)
    requires 0 <= n0 < |reg| && QuietBefore(reg, m, onlySimples, b, s, n0)
    requires Active(reg[n0], m, onlySimples) ==> RuleQuiet(reg[n0], m, b, s)
    ensures QuietBefore(reg, m, onlySimples, b, s, n0 + 1)
  {
  }

  /** A partition eliminator on the views, rows first, then columns, then
      groups, each by ascending index, up to the first partition where it
      reports a change or fails. */
  method TryPartitions(g: Game, r: Rule, m: Matcher, sections: Sections, ghost n: nat)
    returns (out: Outcome, v: View, i: nat)
    requires OnPartitions(r) && MatcherOk(m) && Fits(g.board, n) && sections == Sectioned(g.board, n)
    modifies g
    ensures g.symbols == old(g.symbols) && g.lastFilled == old(g.lastFilled) && g.config == old(g.config)
    ensures !out.Changed? ==> g.board == old(g.board)
    ensures out.Unchanged? ==> RuleQuiet(r, m, old(g.board), sections)
    ensures !out.Unchanged? ==> i < |Select(sections, v)| && QuietUpTo(r, m, old(g.board), sections, v, i)
    ensures out.Failed? ==> r == MatchingRule && m.hint(old(g.board), Select(sections, v)[i]) == HintFailed(out.err)
    ensures out.Changed? ==>
      && out.loc in Select(sections, v)[i]
      && Applied(old(g.board), g.board, out.loc) && Shrinks(old(g.board), g.board)
    ensures WellFormed(old(g.board)) ==> WellFormed(g.board)
    ensures out.Changed? && WellFormed(old(g.board)) && Honest(m) ==> Total(g.board) < Total(old(g.board))
  {
    ghost var b := g.board;
    SectionsOn(b, n);
    for k := 0 to 3
      invariant g.board == b && g.symbols == old(g.symbols) && g.lastFilled == old(g.lastFilled) && g.config == old(g.config)
      invariant k < 3 ==> QuietUpTo(r, m, b, sections, ViewAt(k), 0)
      invariant k == 3 ==> forall v', i': nat :: i' < |Select(sections, v')| && PartOn(b, Select(sections, v')[i']) ==>
        PartQuiet(r, m, b, Select(sections, v')[i'])
    {
      v := ViewAt(k);
      var parts := Select(sections, v);
      for j := 0 to |parts|
        invariant g.board == b && g.symbols == old(g.symbols) && g.lastFilled == old(g.lastFilled) && g.config == old(g.config)
        invariant QuietUpTo(r, m, b, sections, v, j)
      {
        out := RunOnPart(g, r, m, parts[j]);
        if !out.Unchanged? {
          i := j;
          return;
        }
        QuietUpToStep(r, m, b, sections, v, j);
      }
      QuietViewDone(r, m, b, sections, k);
    }
    out, v, i := Unchanged, Rows, 0;
  }

  /** `Game.EliminateCandidates` with randomisation off: the first change
      any eliminator of `reg` reports, trying only simple ones when
      `onlySimples` is set; the error of a failing eliminator, wrapped with
      its name and partition; or the "nothing eliminated" error when every
      eliminator tried is quiet. Simple changes found on a partition while
      `hideSimple` is set are reported as the empty change, although the
      removal has been made. */
  method EliminateCandidates(g: Game, reg: seq<Rule>, m: Matcher, onlySimples: bool) returns (rep: Report)
    requires Fits(g.board, |g.symbols|) && MatcherOk(m)
    modifies g
    ensures g.symbols == old(g.symbols) && g.lastFilled == old(g.lastFilled) && g.config == old(g.config)
    ensures rep.Fail? ==> g.board == old(g.board)
    ensures rep.Fail? && rep.msg == NoneEliminated ==>
      QuietBefore(reg, m, onlySimples, old(g.board), Sectioned(old(g.board), |g.symbols|), |reg|)
    ensures rep.Fail? && rep.msg != NoneEliminated ==> exists n0, v, i: nat, err ::
      && ReachedAt(reg, m, onlySimples, old(g.board), Sectioned(old(g.board), |g.symbols|), n0, MatchingRule, Some((v, i)))
      && m.hint(old(g.board), Select(Sectioned(old(g.board), |g.symbols|), v)[i]) == HintFailed(err)
      && rep.msg == Wrapped(MatchingRule, m, v, i, err)
    ensures rep.Progress? ==>
      exists n0 :: ReachedAt(reg, m, onlySimples, old(g.board), Sectioned(old(g.board), |g.symbols|), n0, rep.rule, rep.at)
    ensures rep.Progress? && rep.at.Some? ==>
      && rep.loc in Select(Sectioned(old(g.board), |g.symbols|), rep.at.value.0)[rep.at.value.1]
      && !(g.config.hideSimple && Simple(rep.rule, m))
    ensures rep.Hidden? ==>
      exists n0 :: ReachedAt(reg, m, onlySimples, old(g.board), Sectioned(old(g.board), |g.symbols|), n0, rep.rule, Some(rep.place))
    ensures rep.Hidden? ==>
      && rep.loc in Select(Sectioned(old(g.board), |g.symbols|), rep.place.0)[rep.place.1]
      && g.config.hideSimple && Simple(rep.rule, m)
    ensures !rep.Fail? ==> Applied(old(g.board), g.board, rep.loc) && Shrinks(old(g.board), g.board)
    ensures WellFormed(old(g.board)) ==> WellFormed(g.board)
    ensures !rep.Fail? && WellFormed(old(g.board)) && Honest(m) ==> Total(g.board) < Total(old(g.board))
  {
    ghost var b := g.board;
    var sections := GetSectionedCells(g.board, |g.symbols|);
    SectionsUnique(b, |g.symbols|, sections);
    for n0 := 0 to |reg|
      invariant g.board == b && g.symbols == old(g.symbols) && g.lastFilled == old(g.lastFilled) && g.config == old(g.config)
      invariant QuietBefore(reg, m, onlySimples, b, sections, n0)
    {
      var r := reg[n0];
      if onlySimples && !Simple(r, m) {
        QuietBeforeStep(reg, m, onlySimples, b, sections, n0);
        continue;
      }
      if OnPartitions(r) {
        var out, v, i := TryPartitions(g, r, m, sections, |g.symbols|);
        if out.Failed? {
          assert ReachedAt(reg, m, onlySimples, b, sections, n0, MatchingRule, Some((v, i)));
          WrappedIsNotNone(r, m, v, i, out.err);
          return Fail(Wrapped(r, m, v, i, out.err));
        }
        if out.Changed? {
          assert ReachedAt(reg, m, onlySimples, b, sections, n0, r, Some((v, i)));
          if g.config.hideSimple && Simple(r, m) {
            return Hidden(r, (v, i), out.loc);
          }
          return Progress(r, Some((v, i)), out.loc, out.removed);
        }
        QuietBeforeStep(reg, m, onlySimples, b, sections, n0);
      } else {
        var out := RunOnGame(g, r);
        if out.Changed? {
          assert ReachedAt(reg, m, onlySimples, b, sections, n0, r, None);
          return Progress(r, None, out.loc, out.removed);
        }
        QuietBeforeStep(reg, m, onlySimples, b, sections, n0);
      }
    }
    assert QuietBefore(reg, m, onlySimples, b, sections, |reg|);
    return Fail(NoneEliminated);
  }
}
