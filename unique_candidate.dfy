/** Unique Candidate: when K candidates of a partition occur in exactly the
    same K cells, those cells can hold nothing else, so their other
    candidates go; one call clears the first cell, in partition order, that
    loses something. */
module UniqueCandidate {
  import opened Seqs
  import opened Sudoku
  import opened Partitions
  import opened Hints

  const Name := "Unique Candidate"

  // ----- Locs.Key ----------------------------------------------------------

  /** Row-major order on locations: by `y`, then by `x`. */
  predicate LocLe(a: Loc, b: Loc) {
    a.y < b.y || (a.y == b.y && a.x <= b.x)
  }

  lemma LocLeIsTotalOrder()
    ensures TotalOrder(LocLe)
  {
  }

  /** `Locs.Key`: the locations sorted by row and then column; the key is
      the printed form of this list, and printing is not modelled. */
  function Key(ls: seq<Loc>): (k: seq<Loc>)
    ensures SortedBy(k, LocLe) && multiset(k) == multiset(ls)
  {
    LocLeIsTotalOrder();
    SortFacts(ls, LocLe);
    InsertionSort(ls, LocLe)
  }

  /** Two lists get the same key exactly when they hold the same locations
      the same number of times. */
  lemma KeySame(a: seq<Loc>, b: seq<Loc>)
    ensures Key(a) == Key(b) <==> multiset(a) == multiset(b)
  {
    if multiset(a) == multiset(b) {
      LocLeIsTotalOrder();
      SortedUnique(Key(a), Key(b), LocLe);
    }
  }

  // ----- occurrences ---------------------------------------------------------

  function Copies(l: Loc, k: nat): seq<Loc> {
    seq(k, _ => l)
  }

  lemma CopiesSnoc(a: seq<Loc>, l: Loc, m: nat)
    ensures (a + Copies(l, m)) + [l] == a + Copies(l, m + 1)
  {
    assert Copies(l, m + 1) == Copies(l, m) + [l];
  }

  /** Where `v` occurs among the candidates of the first `n` cells of the
      partition: the cell's location once per occurrence, in partition
      order. */
  function Occ(b: Board, p: Part, n: nat, v: string): seq<Loc>
    requires PartOn(b, p) && n <= |p|
  {
    if n == 0 then []
    else Occ(b, p, n - 1, v) + Copies(p[n - 1], multiset(CandidatesAt(b, p[n - 1]))[v])
  }

  /** `v`'s occurrences in the whole partition. */
  function Occurrences(b: Board, p: Part, v: string): seq<Loc>
    requires PartOn(b, p)
  {
    Occ(b, p, |p|, v)
  }

  lemma {:induction false} OccFacts(b: Board, p: Part, n: nat, v: string)
    requires PartOn(b, p) && n <= |p|
    ensures forall l :: l in Occ(b, p, n, v) <==>
      exists i :: 0 <= i < n && p[i] == l && v in CandidatesAt(b, l)
  {
    if n > 0 {
      OccFacts(b, p, n - 1, v);
      var l := p[n - 1];
      var k := multiset(CandidatesAt(b, l))[v];
      assert k > 0 <==> v in CandidatesAt(b, l);
      if k > 0 {
        assert Copies(l, k)[0] == l;
      }
    }
  }

  /** The candidates occurring anywhere in the partition. */
  function AllCandidates(b: Board, p: Part): set<string>
    requires PartOn(b, p)
  {
    set i, w | 0 <= i < |p| && w in CandidatesAt(b, p[i]) :: w
  }

  lemma OccurrencesNonEmpty(b: Board, p: Part, v: string)
    requires PartOn(b, p)
    ensures Occurrences(b, p, v) != [] <==> v in AllCandidates(b, p)
  {
    OccFacts(b, p, |p|, v);
    if v in AllCandidates(b, p) {
      var i :| 0 <= i < |p| && v in CandidatesAt(b, p[i]);
      assert p[i] in Occurrences(b, p, v);
    }
    if Occurrences(b, p, v) != [] {
      var l := Occurrences(b, p, v)[0];
      assert l in Occurrences(b, p, v);
      var i :| 0 <= i < |p| && p[i] == l && v in CandidatesAt(b, l);
    }
  }

  /** The candidates filed under `v`'s key: those occurring in exactly the
      same cells as `v`, as often. */
  ghost function ClassOf(b: Board, p: Part, v: string): set<string>
    requires PartOn(b, p)
  {
    set w | w in AllCandidates(b, p) && Key(Occurrences(b, p, w)) == Key(Occurrences(b, p, v))
  }

  /** `v`'s class survives the size check: it has as many candidates as
      `v` has occurrences. */
  ghost predicate Tight(b: Board, p: Part, v: string)
    requires PartOn(b, p)
  {
    v in AllCandidates(b, p) && |ClassOf(b, p, v)| == |Occurrences(b, p, v)|
  }

  /** A class's members are exactly the candidates that occur in the same
      cells as `v`, as often; on a well-formed board, in a partition without
      repeated cells, that is: in the same cells. */
  lemma ClassMeaning(b: Board, p: Part, v: string, w: string)
    requires PartOn(b, p)
    ensures w in ClassOf(b, p, v) <==>
      w in AllCandidates(b, p) && multiset(Occurrences(b, p, w)) == multiset(Occurrences(b, p, v))
  {
    KeySame(Occurrences(b, p, w), Occurrences(b, p, v));
  }

  // ----- the steps of the eliminator ---------------------------------------

  /** The list recorded so far for `v`, empty when there is none. The
      helpers below are generic in the key type, which keeps the solver away
      from string equality. */
  function Recorded<K>(occ: map<K, seq<Loc>>, v: K): seq<Loc> {
    if v in occ then occ[v] else []
  }

  /** One candidate of the cell at `l` recorded: the list of `c` gains
      `l` at its end, the other lists stay. */
  lemma RecordStep<K>(occ0: map<K, seq<Loc>>, prev: map<K, seq<Loc>>, l: Loc,
                   cands: seq<K>, k: nat, v: K)
    requires k < |cands|
    requires Recorded(prev, v) == Recorded(occ0, v) + Copies(l, multiset(cands[..k])[v])
    ensures Recorded(prev[cands[k] := Recorded(prev, cands[k]) + [l]], v) ==
      Recorded(occ0, v) + Copies(l, multiset(cands[..k + 1])[v])
  {
    var c := cands[k];
    var m := multiset(cands[..k])[v];
    assert cands[..k + 1] == cands[..k] + [c];
    if v == c {
      CopiesSnoc(Recorded(occ0, v), l, m);
    }
  }

  /** The inner loop of the first pass: the cell at `l` adds its location
      to the list of each of its candidates, once per occurrence. */
  method RecordCell<K>(occ0: map<K, seq<Loc>>, l: Loc, cands: seq<K>)
    returns (occ: map<K, seq<Loc>>)
    requires forall v :: v in occ0 ==> occ0[v] != []
    ensures forall v :: v in occ ==> occ[v] != []
    ensures forall v :: Recorded(occ, v) == Recorded(occ0, v) + Copies(l, multiset(cands)[v])
  {
    occ := occ0;
    var k := 0;
    assert cands[..0] == [] && Copies(l, 0) == [];
    forall v ensures Recorded(occ, v) == Recorded(occ0, v) + Copies(l, multiset(cands[..0])[v]) {
      assert Recorded(occ0, v) + [] == Recorded(occ0, v);
    }
    while k < |cands|
      invariant 0 <= k <= |cands|
      invariant forall v :: v in occ ==> occ[v] != []
      invariant forall v :: Recorded(occ, v) == Recorded(occ0, v) + Copies(l, multiset(cands[..k])[v])
    {
      ghost var prev := occ;
      occ := occ[cands[k] := Recorded(occ, cands[k]) + [l]];
      forall v ensures Recorded(occ, v) == Recorded(occ0, v) + Copies(l, multiset(cands[..k + 1])[v]) {
        RecordStep(occ0, prev, l, cands, k, v);
      }
      k := k + 1;
    }
    assert cands[..k] == cands;
  }

  /** One more cell recorded: the map now agrees with one more cell of
      the partition. */
  lemma CollectStep(b: Board, p: Part, i: nat, prev: map<string, seq<Loc>>, occ: map<string, seq<Loc>>)
    requires PartOn(b, p) && i < |p|
    requires Agrees(b, p, i, prev)
    requires forall v :: Recorded(occ, v) == Recorded(prev, v) + Copies(p[i], multiset(CandidatesAt(b, p[i]))[v])
    ensures Agrees(b, p, i + 1, occ)
  {
  }

  /** The map holds the occurrences in the first `i` cells. */
  ghost predicate Agrees(b: Board, p: Part, i: nat, occ: map<string, seq<Loc>>)
    requires PartOn(b, p) && i <= |p|
  {
    forall v :: Recorded(occ, v) == Occ(b, p, i, v)
  }

  /** The first pass: each candidate's occurrences, as a map from the
      candidate to its list; a candidate occurring nowhere has no entry. */
  method CollectOccurrences(b: Board, p: Part) returns (occ: map<string, seq<Loc>>)
    requires PartOn(b, p)
    ensures forall v :: v in occ ==> occ[v] != []
    ensures forall v :: Recorded(occ, v) == Occurrences(b, p, v)
  {
    occ := map[];
    var i := 0;
    while i < |p|
      invariant 0 <= i <= |p|
      invariant forall v :: v in occ ==> occ[v] != []
      invariant Agrees(b, p, i, occ)
    {
      ghost var prev := occ;
      occ := RecordCell(occ, p[i], CandidatesAt(b, p[i]));
      CollectStep(b, p, i, prev, occ);
      i := i + 1;
    }
  }

  /** So the map holds exactly the candidates of the partition. */
  lemma OccurrenceMap(b: Board, p: Part, occ: map<string, seq<Loc>>)
    requires PartOn(b, p)
    requires forall v :: v in occ ==> occ[v] != []
    requires forall v :: Recorded(occ, v) == Occurrences(b, p, v)
    ensures forall v :: v in occ <==> v in AllCandidates(b, p)
    ensures forall v :: v in occ ==> occ[v] == Occurrences(b, p, v)
  {
    forall v ensures v in occ <==> v in AllCandidates(b, p) {
      OccurrencesNonEmpty(b, p, v);
      assert Recorded(occ, v) == Occurrences(b, p, v);
    }
  }

  /** A class being built: its candidates, and the sorted locations they
      share. */
  datatype Unique<K> = Unique(candidates: seq<K>, locs: seq<Loc>)

  /** The builder after the candidates in `done` have been filed: one entry
      per key met, holding that key as its locations and, once each, the
      candidates filed under it. */
  ghost predicate Grouped<K>(occ: map<K, seq<Loc>>, done: set<K>, builder: map<seq<Loc>, Unique<K>>)
    requires done <= occ.Keys
  {
    && (forall k :: k in builder ==>
          builder[k].locs == k && NoDup(builder[k].candidates) && builder[k].candidates != [])
    && (forall k, w :: k in builder && w in builder[k].candidates ==> w in done && Key(occ[w]) == k)
    && (forall v :: v in done ==> Key(occ[v]) in builder && v in builder[Key(occ[v])].candidates)
  }

  /** Files candidate `v` under the key of its locations. */
  function FileUnder<K>(occ: map<K, seq<Loc>>, builder: map<seq<Loc>, Unique<K>>, v: K): map<seq<Loc>, Unique<K>>
    requires v in occ
  {
    var key := Key(occ[v]);
    var uc := if key in builder then builder[key] else Unique([], key);
    builder[key := uc.(candidates := uc.candidates + [v])]
  }

  lemma GroupStep<K>(occ: map<K, seq<Loc>>, done: set<K>, builder: map<seq<Loc>, Unique<K>>, v: K)
    requires done <= occ.Keys && v in occ && v !in done
    requires Grouped(occ, done, builder)
    ensures Grouped(occ, done + {v}, FileUnder(occ, builder, v))
  {
    var key := Key(occ[v]);
    var uc := if key in builder then builder[key] else Unique([], key);
    var nb := FileUnder(occ, builder, v);
    assert v !in uc.candidates;
    forall w | w in done + {v} ensures Key(occ[w]) in nb && w in nb[Key(occ[w])].candidates {
      if w != v && Key(occ[w]) == key {
        assert w in uc.candidates;
      }
    }
  }

  /** The second pass: the candidates filed by the key of their locations.
      Go walks the map in no fixed order; the model picks any candidate not
      yet filed, so the order of each class's candidates is left open. */
  method GroupByKey<K>(occ: map<K, seq<Loc>>) returns (builder: map<seq<Loc>, Unique<K>>)
    ensures Grouped(occ, occ.Keys, builder)
  {
    builder := map[];
    var todo := occ.Keys;
    while todo != {}
      invariant todo <= occ.Keys
      invariant Grouped(occ, occ.Keys - todo, builder)
      decreases |todo|
    {
      var v :| v in todo;
      GroupStep(occ, occ.Keys - todo, builder, v);
      builder := FileUnder(occ, builder, v);
      assert occ.Keys - (todo - {v}) == (occ.Keys - todo) + {v};
      todo := todo - {v};
    }
    assert occ.Keys - todo == occ.Keys;
  }

  /** The third pass: a class stays only when it has as many candidates as
      locations. */
  method DropLoose<K>(builder: map<seq<Loc>, Unique<K>>) returns (kept: map<seq<Loc>, Unique<K>>)
    ensures forall k :: k in kept <==> k in builder && |builder[k].candidates| == |builder[k].locs|
    ensures forall k :: k in kept ==> kept[k] == builder[k]
  {
    kept := builder;
    var todo := builder.Keys;
    while todo != {}
      invariant todo <= builder.Keys
      invariant forall k :: k in kept <==>
        k in builder && (k in todo || |builder[k].candidates| == |builder[k].locs|)
      invariant forall k :: k in kept ==> kept[k] == builder[k]
      decreases |todo|
    {
      var k :| k in todo;
      if |kept[k].candidates| != |kept[k].locs| {
        kept := kept - {k};
      }
      todo := todo - {k};
    }
  }

  /** One class handed out: each of its locations is mapped to its
      candidates, replacing what an earlier class left there. */
  method AssignClass<K>(assign0: map<Loc, seq<K>>, uc: Unique<K>) returns (assign: map<Loc, seq<K>>)
    ensures forall l :: l in assign <==> l in assign0 || l in uc.locs
    ensures forall l :: l in assign ==>
      if l in uc.locs then assign[l] == uc.candidates else assign[l] == assign0[l]
  {
    assign := assign0;
    var j := 0;
    while j < |uc.locs|
      invariant 0 <= j <= |uc.locs|
      invariant forall l :: l in assign <==> l in assign0 || l in uc.locs[..j]
      invariant forall l :: l in assign ==>
        if l in uc.locs[..j] then assign[l] == uc.candidates else assign[l] == assign0[l]
    {
      assert uc.locs[..j + 1] == uc.locs[..j] + [uc.locs[j]];
      assign := assign[uc.locs[j] := uc.candidates];
      j := j + 1;
    }
    assert uc.locs[..j] == uc.locs;
  }

  /** After the classes in `done` were handed out: a location of one of
      them is mapped to the candidates of one of them that holds it. */
  ghost predicate Assigned<K>(kept: map<seq<Loc>, Unique<K>>, done: set<seq<Loc>>, assign: map<Loc, seq<K>>)
    requires done <= kept.Keys
  {
    && (forall k, l :: k in done && l in kept[k].locs ==> l in assign)
    && (forall l :: l in assign ==> exists k :: k in done && l in kept[k].locs && assign[l] == kept[k].candidates)
  }

  /** The fourth pass: every location of a surviving class is mapped to the
      candidates of a class holding it. Go walks the classes in no fixed
      order, so when two classes share a location either may win; the
      model leaves that choice open. */
  method AssignLocs<K>(kept: map<seq<Loc>, Unique<K>>) returns (assign: map<Loc, seq<K>>)
    ensures Assigned(kept, kept.Keys, assign)
  {
    assign := map[];
    var todo := kept.Keys;
    while todo != {}
      invariant todo <= kept.Keys
      invariant Assigned(kept, kept.Keys - todo, assign)
      decreases |todo|
    {
      var k :| k in todo;
      ghost var prev := assign;
      assign := AssignClass(assign, kept[k]);
      ghost var done := kept.Keys - todo;
      assert done + {k} == kept.Keys - (todo - {k});
      forall l | l in assign
        ensures exists k' :: k' in done + {k} && l in kept[k'].locs && assign[l] == kept[k'].candidates
      {
        if l !in kept[k].locs {
          var k' :| k' in done && l in kept[k'].locs && prev[l] == kept[k'].candidates;
        }
      }
      todo := todo - {k};
    }
    assert kept.Keys - todo == kept.Keys;
  }

  /** What Go removes from a cell mapped to the class candidates `ucs`: its
      other candidates, in their order. */
  function Others(c: Cell, ucs: seq<string>): seq<string> {
    Keep(c.candidates, set w | w in ucs)
  }

  /** The cell at `l` loses nothing under the assignment. */
  predicate Quiet(b: Board, l: Loc, assign: map<Loc, seq<string>>)
    requires OnBoard(b, l)
  {
    l !in assign || RemovedBy(At(b, l).cell, Others(At(b, l).cell, assign[l])) == []
  }

  /** The last pass: the first cell of the partition that the assignment
      makes lose something, with what it is asked to drop. */
  method ScanCells(b: Board, p: Part, assign: map<Loc, seq<string>>) returns (r: Option<(Loc, seq<string>)>)
    requires PartOn(b, p)
    ensures r.Some? ==> exists i ::
      && 0 <= i < |p| && p[i] == r.value.0
      && p[i] in assign
      && r.value.1 == Others(At(b, p[i]).cell, assign[p[i]])
      && RemovedBy(At(b, p[i]).cell, r.value.1) != []
      && forall j :: 0 <= j < i ==> Quiet(b, p[j], assign)
    ensures r.None? ==> forall j :: 0 <= j < |p| ==> Quiet(b, p[j], assign)
  {
    var i := 0;
    while i < |p|
      invariant 0 <= i <= |p|
      invariant forall j :: 0 <= j < i ==> Quiet(b, p[j], assign)
    {
      var l := p[i];
      if l in assign {
        var c := At(b, l).cell;
        var toRemove := Others(c, assign[l]);
        if RemovedBy(c, toRemove) != [] {
          return Some((l, toRemove));
        }
      }
      i := i + 1;
    }
    return None;
  }

  // ----- what the passes compute -------------------------------------------

  /** The first pass's result, read through `OccurrenceMap`. */
  ghost predicate Collected(b: Board, p: Part, occ: map<string, seq<Loc>>)
    requires PartOn(b, p)
  {
    && (forall v :: v in occ <==> v in AllCandidates(b, p))
    && (forall v :: v in occ ==> occ[v] == Occurrences(b, p, v))
  }

  /** The third pass's result. */
  ghost predicate KeptOf<K>(builder: map<seq<Loc>, Unique<K>>, kept: map<seq<Loc>, Unique<K>>) {
    && (forall k :: k in kept <==> k in builder && |builder[k].candidates| == |builder[k].locs|)
    && (forall k :: k in kept ==> kept[k] == builder[k])
  }

  /** A class in the builder holds exactly `ClassOf` any of its members,
      under the key of that member's occurrences. */
  lemma ClassSet(b: Board, p: Part, occ: map<string, seq<Loc>>, builder: map<seq<Loc>, Unique<string>>,
                 k: seq<Loc>, v: string)
    requires PartOn(b, p) && Collected(b, p, occ) && Grouped(occ, occ.Keys, builder)
    requires k in builder && v in builder[k].candidates
    ensures v in AllCandidates(b, p) && Key(Occurrences(b, p, v)) == k
    ensures (set w | w in builder[k].candidates) == ClassOf(b, p, v)
  {
    assert v in occ && Key(occ[v]) == k;
    var kv := Key(Occurrences(b, p, v));
    var cs := set w | w in builder[k].candidates;
    forall w | w in cs ensures w in ClassOf(b, p, v) {
      assert w in occ && Key(occ[w]) == k;
      assert Key(Occurrences(b, p, w)) == kv;
    }
    forall w | w in ClassOf(b, p, v) ensures w in cs {
      assert w in occ && Key(Occurrences(b, p, w)) == kv;
      assert w in builder[Key(occ[w])].candidates;
    }
  }

  /** So a class survives the size check exactly when its members are
      `Tight`. */
  lemma ClassKept(b: Board, p: Part, occ: map<string, seq<Loc>>, builder: map<seq<Loc>, Unique<string>>,
                  k: seq<Loc>, v: string)
    requires PartOn(b, p) && Collected(b, p, occ) && Grouped(occ, occ.Keys, builder)
    requires k in builder && v in builder[k].candidates
    ensures |builder[k].candidates| == |builder[k].locs| <==> Tight(b, p, v)
    ensures forall l :: l in builder[k].locs <==> l in Occurrences(b, p, v)
  {
    ClassSet(b, p, occ, builder, k, v);
    NoDupCard(builder[k].candidates);
    var o := Occurrences(b, p, v);
    assert |multiset(Key(o))| == |multiset(o)|;
    forall l ensures l in builder[k].locs <==> l in o {
      assert l in builder[k].locs <==> l in multiset(Key(o));
    }
  }

  /** A location of the partition is `Covered` when some tight candidate
      occurs there. */
  ghost predicate Covered(b: Board, p: Part, l: Loc)
    requires PartOn(b, p)
  {
    exists v :: Tight(b, p, v) && l in Occurrences(b, p, v)
  }

  /** The assignment maps exactly the covered locations, each to the
      candidates of a tight class occurring there. */
  ghost predicate AssignOk(b: Board, p: Part, assign: map<Loc, seq<string>>)
    requires PartOn(b, p)
  {
    && (forall l :: l in assign <==> Covered(b, p, l))
    && forall l :: l in assign ==> exists v ::
      Tight(b, p, v) && l in Occurrences(b, p, v) && (set w | w in assign[l]) == ClassOf(b, p, v)
  }

  /** What the passes before the last one build: the assignment of each
      covered location to its class. */
  lemma AssignMeaning(b: Board, p: Part, occ: map<string, seq<Loc>>, builder: map<seq<Loc>, Unique<string>>,
                      kept: map<seq<Loc>, Unique<string>>, assign: map<Loc, seq<string>>)
    requires PartOn(b, p) && Collected(b, p, occ) && Grouped(occ, occ.Keys, builder)
    requires KeptOf(builder, kept) && Assigned(kept, kept.Keys, assign)
    ensures AssignOk(b, p, assign)
  {
    forall l | l in assign ensures exists v ::
      Tight(b, p, v) && l in Occurrences(b, p, v) && (set w | w in assign[l]) == ClassOf(b, p, v)
    {
      var k :| k in kept && l in kept[k].locs && assign[l] == kept[k].candidates;
      var v := builder[k].candidates[0];
      ClassSet(b, p, occ, builder, k, v);
      ClassKept(b, p, occ, builder, k, v);
    }
    forall l | Covered(b, p, l) ensures l in assign {
      var v :| Tight(b, p, v) && l in Occurrences(b, p, v);
      var k := Key(occ[v]);
      ClassKept(b, p, occ, builder, k, v);
    }
  }

  /** The cell at `l` holds no candidate outside the tight class of `v`
      after the removal, so it loses nothing. */
  ghost predicate Settles(b: Board, p: Part, l: Loc, v: string)
    requires PartOn(b, p) && OnBoard(b, l)
  {
    Tight(b, p, v) && l in Occurrences(b, p, v) &&
    RemovedBy(At(b, l).cell, Keep(CandidatesAt(b, l), ClassOf(b, p, v))) == []
  }

  /** A cell the eliminator may pass over: no tight class covers it, or
      one that does leaves it as it is. */
  ghost predicate Exempt(b: Board, p: Part, l: Loc)
    requires PartOn(b, p) && OnBoard(b, l)
  {
    !Covered(b, p, l) || exists v :: Settles(b, p, l, v)
  }

  lemma QuietExempt(b: Board, p: Part, assign: map<Loc, seq<string>>, l: Loc)
    requires PartOn(b, p) && OnBoard(b, l) && AssignOk(b, p, assign)
    requires Quiet(b, l, assign)
    ensures Exempt(b, p, l)
  {
    if l in assign {
      var v :| Tight(b, p, v) && l in Occurrences(b, p, v) && (set w | w in assign[l]) == ClassOf(b, p, v);
      assert Settles(b, p, l, v);
    }
  }

  // ----- the eliminator ------------------------------------------------------

  /** The cell at `p[i]` is where the eliminator acts with the tight class
      of `v`, asking it to drop `toRemove`: the class covers it, it would
      lose something, and every earlier cell may be passed over. */
  ghost predicate ActsAt(b: Board, p: Part, i: int, v: string, toRemove: seq<string>)
    requires PartOn(b, p)
  {
    && 0 <= i < |p|
    && Tight(b, p, v) && p[i] in Occurrences(b, p, v)
    && toRemove == Keep(CandidatesAt(b, p[i]), ClassOf(b, p, v))
    && RemovedBy(At(b, p[i]).cell, toRemove) != []
    && forall j :: 0 <= j < i ==> Exempt(b, p, p[j])
  }

  /** The cell the last pass finds is one the eliminator acts on. */
  lemma FoundActs(b: Board, p: Part, assign: map<Loc, seq<string>>, i: int, vs: seq<string>)
    requires PartOn(b, p) && AssignOk(b, p, assign)
    requires 0 <= i < |p| && p[i] in assign
    requires vs == Others(At(b, p[i]).cell, assign[p[i]])
    requires RemovedBy(At(b, p[i]).cell, vs) != []
    requires forall j :: 0 <= j < i ==> Quiet(b, p[j], assign)
    ensures exists v :: ActsAt(b, p, i, v, vs)
  {
    var v :| Tight(b, p, v) && p[i] in Occurrences(b, p, v) && (set w | w in assign[p[i]]) == ClassOf(b, p, v);
    forall j | 0 <= j < i ensures Exempt(b, p, p[j]) {
      QuietExempt(b, p, assign, p[j]);
    }
    assert ActsAt(b, p, i, v, vs);
  }

  /** Cells the last pass passes over are exempt. */
  lemma AllExempt(b: Board, p: Part, assign: map<Loc, seq<string>>)
    requires PartOn(b, p) && AssignOk(b, p, assign)
    requires forall j :: 0 <= j < |p| ==> Quiet(b, p[j], assign)
    ensures forall j :: 0 <= j < |p| ==> Exempt(b, p, p[j])
  {
    forall j | 0 <= j < |p| ensures Exempt(b, p, p[j]) {
      QuietExempt(b, p, assign, p[j]);
    }
  }

  /** The passes of the eliminator up to the removal: the location to
      clear and the candidates it is asked to drop, or `None` when every
      cell may be passed over. */
  method Scan(b: Board, p: Part) returns (r: Option<(Loc, seq<string>)>)
    requires PartOn(b, p)
    ensures r.Some? ==> exists i, v :: ActsAt(b, p, i, v, r.value.1) && p[i] == r.value.0
    ensures r.None? ==> forall j :: 0 <= j < |p| ==> Exempt(b, p, p[j])
  {
    var occ := CollectOccurrences(b, p);
    OccurrenceMap(b, p, occ);
    var builder := GroupByKey(occ);
    var kept := DropLoose(builder);
    if |kept| == 0 {
      assert kept.Keys == {};
      AssignMeaning(b, p, occ, builder, kept, map[]);
      return None;
    }
    var assign := AssignLocs(kept);
    AssignMeaning(b, p, occ, builder, kept, assign);
    r := ScanCells(b, p, assign);
    if r.Some? {
      ghost var i :| && 0 <= i < |p| && p[i] == r.value.0
        && p[i] in assign
        && r.value.1 == Others(At(b, p[i]).cell, assign[p[i]])
        && RemovedBy(At(b, p[i]).cell, r.value.1) != []
        && forall j :: 0 <= j < i ==> Quiet(b, p[j], assign);
      FoundActs(b, p, assign, i, r.value.1);
    } else {
      AllExempt(b, p, assign);
    }
  }

  /** One Unique Candidate step on the game: the first cell it acts on
      loses the candidates outside its class, and the outcome reports what
      went; nothing changes when every cell may be passed over. */
  method Eliminate(g: Game, p: Part) returns (out: Outcome)
    requires PartOn(g.board, p)
    modifies g
    ensures !out.Failed?
    ensures out.Unchanged? ==>
      g.board == old(g.board) && forall j :: 0 <= j < |p| ==> Exempt(old(g.board), p, p[j])
    ensures out.Changed? ==> exists i, v, toRemove ::
      && ActsAt(old(g.board), p, i, v, toRemove) && p[i] == out.loc
      && out.removed == RemovedBy(At(old(g.board), out.loc).cell, toRemove)
      && g.board == WithCell(old(g.board), out.loc, Removal(At(old(g.board), out.loc).cell, toRemove))
    ensures g.symbols == old(g.symbols) && g.lastFilled == old(g.lastFilled) && g.config == old(g.config)
  {
    var r := Scan(g.board, p);
    if r.None? {
      return Unchanged;
    }
    var (l, toRemove) := r.value;
    ghost var i, v :| ActsAt(g.board, p, i, v, toRemove) && p[i] == l;
    var removed := g.RemoveCandidates(l, toRemove);
    out := Changed(l, removed);
  }

  // ----- why the removal is sound --------------------------------------------

  /** The members of a tight class occur only in the class's cells: each of
      them occurs wherever `v` does, and nowhere else in the partition. */
  lemma ClassConfined(b: Board, p: Part, v: string, w: string, l: Loc)
    requires PartOn(b, p) && w in ClassOf(b, p, v) && l in p
    ensures w in CandidatesAt(b, l) <==> l in Occurrences(b, p, v)
  {
    ClassMeaning(b, p, v, w);
    OccFacts(b, p, |p|, w);
    OccFacts(b, p, |p|, v);
    assert l in Occurrences(b, p, w) <==> l in multiset(Occurrences(b, p, w));
    assert l in Occurrences(b, p, v) <==> l in multiset(Occurrences(b, p, v));
    var i :| 0 <= i < |p| && p[i] == l;
  }

  /** On a well-formed board, the cell the eliminator clears ends up with
      exactly the candidates of the tight class, in their old order. */
  lemma RemovalKeepsClass(b: Board, p: Part, v: string, l: Loc)
    requires PartOn(b, p) && WellFormed(b) && l in p && Tight(b, p, v) && l in Occurrences(b, p, v)
    ensures var c := At(b, l).cell;
      Removal(c, Keep(c.candidates, ClassOf(b, p, v))).candidates == Taken(c.candidates, ClassOf(b, p, v))
    ensures forall w :: w in Taken(CandidatesAt(b, l), ClassOf(b, p, v)) <==> w in ClassOf(b, p, v)
  {
    var c := At(b, l).cell;
    var cls := ClassOf(b, p, v);
    var toRemove := Keep(c.candidates, cls);
    OccFacts(b, p, |p|, v);
    var i :| 0 <= i < |p| && p[i] == l && v in CandidatesAt(b, l);
    assert OnBoard(b, l);
    assert CellOk(c);
    FilterFacts(c.candidates, cls);
    forall w | w in c.candidates ensures w in Requested(toRemove) <==> w !in cls {
    }
    KeepComplement(c.candidates, Requested(toRemove), cls);
    forall w | w in cls ensures w in c.candidates {
      ClassConfined(b, p, v, w, l);
    }
  }
}
