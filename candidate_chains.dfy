/** Candidate Chains (naked subsets): when K cells of a partition, each with
    at least two candidates, hold exactly K candidates between them, those
    candidates must go in those cells, so every other cell of the partition
    loses them. Chains are tried by size, from 2 up, and within a size in
    the order `getCombinations` lists them; one call clears the first cell
    that loses something. */
module CandidateChains {
  import opened Seqs
  import opened Sudoku
  import opened Partitions
  import opened Hints
  import opened Choices

  const Name := "Candidate Chains"

  // ----- the cells a chain is made of ---------------------------------------

  /** The cells of the partition with at least two candidates, in partition
      order. */
  function MultiCells(b: Board, p: Part): seq<Loc>
    requires PartOn(b, p)
  {
    if p == [] then []
    else (if |CandidatesAt(b, p[0])| >= 2 then [p[0]] else []) + MultiCells(b, p[1..])
  }

  lemma {:induction false} MultiCellsFacts(b: Board, p: Part)
    requires PartOn(b, p)
    ensures IsSubseq(MultiCells(b, p), p)
    ensures forall l :: l in MultiCells(b, p) <==> l in p && |CandidatesAt(b, l)| >= 2
    decreases |p|
  {
    if p != [] {
      MultiCellsFacts(b, p[1..]);
      var r := MultiCells(b, p[1..]);
      if |CandidatesAt(b, p[0])| >= 2 {
        assert ([p[0]] + r)[1..] == r;
      } else {
        assert [] + r == r;
      }
      assert p == [p[0]] + p[1..];
    }
  }

  /** The first pass: the cells with at least two candidates. */
  method CandidateCells(b: Board, p: Part) returns (cc: seq<Loc>)
    requires PartOn(b, p)
    ensures cc == MultiCells(b, p)
  {
    cc := [];
    var i := 0;
    while i < |p|
      invariant 0 <= i <= |p|
      invariant cc + MultiCells(b, p[i..]) == MultiCells(b, p)
    {
      assert p[i..][1..] == p[i + 1..];
      if |CandidatesAt(b, p[i])| >= 2 {
        cc := cc + [p[i]];
      }
      i := i + 1;
    }
    assert p[i..] == [];
  }

  /** A combination of candidate cells is a duplicate-free-where-`p`-is,
      order-preserving choice of `size` partition cells, each with at least
      two candidates. */
  lemma ChainCells(b: Board, p: Part, size: nat, c: seq<Loc>)
    requires PartOn(b, p) && c in Combinations(MultiCells(b, p), size)
    ensures |c| == size && IsSubseq(c, p) && PartOn(b, c)
    ensures forall l :: l in c ==> |CandidatesAt(b, l)| >= 2
    ensures NoDup(p) ==> NoDup(c)
  {
    var cc := MultiCells(b, p);
    MultiCellsFacts(b, p);
    CombinationsSound(cc, size);
    assert |c| == size && IsSubseq(c, cc);
    SubseqFacts(c, cc);
    assert forall l :: l in c ==> l in p && |CandidatesAt(b, l)| >= 2;
    SubseqTrans(c, cc, p);
    if NoDup(p) {
      SubseqNoDup(c, p);
    }
  }

  // ----- the candidates of a chain ------------------------------------------

  /** The candidates held by the cells of `c`. */
  function Union(b: Board, c: seq<Loc>): set<string> {
    set l, v | l in c && OnBoard(b, l) && v in CandidatesAt(b, l) :: v
  }

  lemma UnionStep(b: Board, c: seq<Loc>, l: Loc)
    requires OnBoard(b, l)
    ensures Union(b, c + [l]) == Union(b, c) + (set v | v in CandidatesAt(b, l))
  {
  }

  /** The second pass, for one combination: the union of its cells'
      candidates. */
  method ChainUnion(b: Board, c: seq<Loc>) returns (u: set<string>)
    requires PartOn(b, c)
    ensures u == Union(b, c)
  {
    u := {};
    var i := 0;
    while i < |c|
      invariant 0 <= i <= |c|
      invariant u == Union(b, c[..i])
    {
      var cands := CandidatesAt(b, c[i]);
      var j := 0;
      while j < |cands|
        invariant 0 <= j <= |cands|
        invariant u == Union(b, c[..i]) + (set v | v in cands[..j])
      {
        assert cands[..j + 1] == cands[..j] + [cands[j]];
        u := u + {cands[j]};
        j := j + 1;
      }
      assert cands[..j] == cands;
      assert c[..i + 1] == c[..i] + [c[i]];
      UnionStep(b, c[..i], c[i]);
      i := i + 1;
    }
    assert c[..i] == c;
  }

  // ----- what one call does ------------------------------------------------

  /** What a chain `c` takes from the cell at `l`: the chain's candidates
      that the cell holds (never ""). */
  function Stripped(b: Board, c: seq<Loc>, l: Loc): seq<string>
    requires OnBoard(b, l)
  {
    Taken(CandidatesAt(b, l), Union(b, c) - {""})
  }

  /** The combination `c` takes nothing: it is not a chain (its cells hold
      more or fewer candidates than it has cells), or no cell of the
      partition outside it holds any of its candidates. */
  ghost predicate ChainQuiet(b: Board, p: Part, c: seq<Loc>)
    requires PartOn(b, p)
  {
    |Union(b, c)| != |c| || forall j :: 0 <= j < |p| && p[j] !in c ==> Stripped(b, c, p[j]) == []
  }

  /** No chain of `size` cells takes anything. */
  ghost predicate SizeQuiet(b: Board, p: Part, size: nat)
    requires PartOn(b, p)
  {
    forall c :: c in Combinations(MultiCells(b, p), size) ==> ChainQuiet(b, p, c)
  }

  /** The chain `c` takes something from `p[j]`, the first cell outside it
      that loses anything, asking it to drop `vs`, which lists the chain's
      candidates. */
  ghost predicate ChainFires(b: Board, p: Part, c: seq<Loc>, j: int, vs: seq<string>)
    requires PartOn(b, p)
  {
    && |Union(b, c)| == |c|
    && (set v | v in vs) == Union(b, c)
    && 0 <= j < |p| && p[j] !in c
    && RemovedBy(At(b, p[j]).cell, vs) != []
    && forall j' :: 0 <= j' < j && p[j'] !in c ==> Stripped(b, c, p[j']) == []
  }

  /** A removal request listing the chain's candidates takes what
      `Stripped` says. */
  lemma RemovedStripped(b: Board, c: seq<Loc>, l: Loc, vs: seq<string>)
    requires OnBoard(b, l) && (set v | v in vs) == Union(b, c)
    ensures RemovedBy(At(b, l).cell, vs) == Stripped(b, c, l)
  {
    assert Requested(vs) == Union(b, c) - {""};
  }

  /** The last pass, for one chain: the first cell outside the chain that
      loses something when asked to drop `vs`. */
  method ScanOutside(b: Board, p: Part, c: seq<Loc>, vs: seq<string>) returns (j: int)
    requires PartOn(b, p) && |Union(b, c)| == |c| && (set v | v in vs) == Union(b, c)
    ensures j >= 0 ==> ChainFires(b, p, c, j, vs)
    ensures j < 0 ==> ChainQuiet(b, p, c)
  {
    j := 0;
    while j < |p|
      invariant 0 <= j <= |p|
      invariant forall j' :: 0 <= j' < j && p[j'] !in c ==> Stripped(b, c, p[j']) == []
    {
      RemovedStripped(b, c, p[j], vs);
      if p[j] !in c && RemovedBy(At(b, p[j]).cell, vs) != [] {
        return;
      }
      j := j + 1;
    }
    j := -1;
  }

  /** One combination of `size` cells: if its cells hold exactly `size`
      candidates, the first cell outside it that loses some of them. */
  method TryChain(b: Board, p: Part, c: seq<Loc>, size: nat) returns (r: Option<(Loc, seq<string>)>)
    requires PartOn(b, p) && PartOn(b, c) && |c| == size
    ensures r.Some? ==> exists j :: ChainFires(b, p, c, j, r.value.1) && p[j] == r.value.0
    ensures r.None? ==> ChainQuiet(b, p, c)
  {
    var u := ChainUnion(b, c);
    if |u| != size {
      return None;
    }
    var list := ListSymbols(u);
    assert (set v | v in list) == u;
    var j := ScanOutside(b, p, c, list);
    if j >= 0 {
      return Some((p[j], list));
    }
    return None;
  }

  /** The combinations of one size, in order: the first that takes
      something. */
  method TrySize(b: Board, p: Part, size: nat) returns (r: Option<(Loc, seq<string>)>)
    requires PartOn(b, p)
    ensures r.Some? ==> exists ci, j ::
      && 0 <= ci < |Combinations(MultiCells(b, p), size)|
      && ChainFires(b, p, Combinations(MultiCells(b, p), size)[ci], j, r.value.1) && p[j] == r.value.0
      && forall ci' :: 0 <= ci' < ci ==> ChainQuiet(b, p, Combinations(MultiCells(b, p), size)[ci'])
    ensures r.None? ==> SizeQuiet(b, p, size)
  {
    var cc := CandidateCells(b, p);
    var combos := Combinations(cc, size);
    var ci := 0;
    while ci < |combos|
      invariant 0 <= ci <= |combos|
      invariant forall ci' :: 0 <= ci' < ci ==> ChainQuiet(b, p, combos[ci'])
    {
      ChainCells(b, p, size, combos[ci]);
      r := TryChain(b, p, combos[ci], size);
      if r.Some? {
        return;
      }
      ci := ci + 1;
    }
    return None;
  }

  /** A chain larger than the number of candidate cells cannot be formed. */
  lemma BeyondCells(b: Board, p: Part, size: nat)
    requires PartOn(b, p) && size > |MultiCells(b, p)|
    ensures SizeQuiet(b, p, size)
  {
    CombinationsCount(MultiCells(b, p), size);
    BinomialZero(|MultiCells(b, p)|, size);
  }

  /** All passes up to the removal: chain sizes from 2 up to the number of
      candidate cells, the combinations of each size in order; the cell to
      clear, the candidates to ask it to drop, and the chain's size. */
  method Scan(b: Board, p: Part) returns (r: Option<(Loc, seq<string>, nat)>)
    requires PartOn(b, p)
    ensures r.Some? ==> 2 <= r.value.2 <= |MultiCells(b, p)|
    ensures r.Some? ==> exists ci, j ::
      && 0 <= ci < |Combinations(MultiCells(b, p), r.value.2)|
      && ChainFires(b, p, Combinations(MultiCells(b, p), r.value.2)[ci], j, r.value.1) && p[j] == r.value.0
      && forall ci' :: 0 <= ci' < ci ==> ChainQuiet(b, p, Combinations(MultiCells(b, p), r.value.2)[ci'])
    ensures r.Some? ==> forall size :: 2 <= size < r.value.2 ==> SizeQuiet(b, p, size)
    ensures r.None? ==> forall size :: 2 <= size ==> SizeQuiet(b, p, size)
  {
    var cc := CandidateCells(b, p);
    var size := 2;
    while size <= |cc|
      invariant 2 <= size
      invariant forall s :: 2 <= s < size ==> SizeQuiet(b, p, s)
    {
      var t := TrySize(b, p, size);
      if t.Some? {
        return Some((t.value.0, t.value.1, size));
      }
      size := size + 1;
    }
    forall s | size <= s ensures SizeQuiet(b, p, s) {
      BeyondCells(b, p, s);
    }
    return None;
  }

  /** One Candidate Chains step on the game: the first cell, in the order
      above, that a chain takes something from loses it, and the outcome
      reports what went; nothing changes when no chain takes anything. */
  method Eliminate(g: Game, p: Part) returns (out: Outcome)
    requires PartOn(g.board, p)
    modifies g
    ensures !out.Failed?
    ensures out.Unchanged? ==>
      g.board == old(g.board) && forall size :: 2 <= size ==> SizeQuiet(old(g.board), p, size)
    ensures out.Changed? ==> exists size, ci, j, vs ::
      && 2 <= size <= |MultiCells(old(g.board), p)|
      && 0 <= ci < |Combinations(MultiCells(old(g.board), p), size)|
      && ChainFires(old(g.board), p, Combinations(MultiCells(old(g.board), p), size)[ci], j, vs)
      && (forall s' :: 2 <= s' < size ==> SizeQuiet(old(g.board), p, s'))
      && (forall ci' :: 0 <= ci' < ci ==> ChainQuiet(old(g.board), p, Combinations(MultiCells(old(g.board), p), size)[ci']))
      && p[j] == out.loc
      && out.removed == RemovedBy(At(old(g.board), out.loc).cell, vs)
      && g.board == WithCell(old(g.board), out.loc, Removal(At(old(g.board), out.loc).cell, vs))
    ensures g.symbols == old(g.symbols) && g.lastFilled == old(g.lastFilled) && g.config == old(g.config)
  {
    var r := Scan(g.board, p);
    if r.None? {
      return Unchanged;
    }
    var (l, vs, size) := r.value;
    var removed := g.RemoveCandidates(l, vs);
    out := Changed(l, removed);
  }

  // ----- why the removal is sound --------------------------------------------

  /** When a chain fires at `p[j]`: the chain is `size` partition cells
      with two or more candidates each, holding exactly `size` candidates
      between them; the cell it clears lies outside it, and everything the
      cell loses is a candidate of the chain. */
  lemma ChainSound(b: Board, p: Part, size: nat, c: seq<Loc>, j: int, vs: seq<string>)
    requires PartOn(b, p) && c in Combinations(MultiCells(b, p), size) && ChainFires(b, p, c, j, vs)
    ensures |c| == size && |Union(b, c)| == size && IsSubseq(c, p) && PartOn(b, c)
    ensures forall l :: l in c ==> |CandidatesAt(b, l)| >= 2
    ensures p[j] !in c
    ensures forall v :: v in RemovedBy(At(b, p[j]).cell, vs) ==> v in Union(b, c) && v in CandidatesAt(b, p[j])
  {
    ChainCells(b, p, size, c);
    RemovedStripped(b, c, p[j], vs);
    FilterFacts(CandidatesAt(b, p[j]), Union(b, c) - {""});
  }
}
