/** Group and Row/Column (pointing candidates): when every cell of group
    `g` holding candidate `v` lies in one row (or one column), `v` can go
    nowhere else in that row (column), so the cells of that row outside
    `g` lose it. One call clears the first cell, in row-major order, that
    loses something, trying the row rule before the column rule. */
module GroupRowColumn {
  import opened Seqs
  import opened Sudoku
  import opened Hints

  const Name := "Group and Row/Column"

  /** The two place types: a cell's row or its column. */
  datatype Place = Row | Col

  function Coord(t: Place, l: Loc): nat {
    if t == Row then l.y else l.x
  }

  // ----- what the eliminator looks for -------------------------------------

  /** The rows (or columns) among the positions `ls` where a cell of group
      `g` holds candidate `v`. */
  function PlacesIn(b: Board, ls: seq<Loc>, t: Place, g: int, v: string): set<nat> {
    set l | l in ls && OnBoard(b, l) && At(b, l).group == g && v in CandidatesAt(b, l) :: Coord(t, l)
  }

  /** The rows (or columns) of group `g` that hold candidate `v`. */
  function Places(b: Board, t: Place, g: int, v: string): set<nat> {
    PlacesIn(b, AllLocs(b), t, g, v)
  }

  /** The candidates that group `g` holds only in row (column) `k`. */
  ghost function Hold(b: Board, t: Place, g: int, k: nat): set<string> {
    set l, v | l in AllLocs(b) && OnBoard(b, l) && v in CandidatesAt(b, l) && Places(b, t, g, v) == {k} :: v
  }

  lemma PlacesMeaning(b: Board, t: Place, g: int, v: string)
    ensures forall k :: k in Places(b, t, g, v) <==>
      exists l :: OnBoard(b, l) && Coord(t, l) == k && At(b, l).group == g && v in CandidatesAt(b, l)
  {
    AllLocsFacts(b);
  }

  lemma HoldMeaning(b: Board, t: Place, g: int, k: nat, v: string)
    ensures v in Hold(b, t, g, k) <==> Places(b, t, g, v) == {k}
  {
    AllLocsFacts(b);
    if Places(b, t, g, v) == {k} {
      assert k in Places(b, t, g, v);
      var l :| l in AllLocs(b) && OnBoard(b, l) && At(b, l).group == g && v in CandidatesAt(b, l) && Coord(t, l) == k;
    }
  }

  // ----- first pass: where each candidate of each group lies ---------------

  /** The set recorded under `key`, empty when there is none. */
  function Look<K, V>(m: map<K, set<V>>, key: K): set<V> {
    if key in m then m[key] else {}
  }

  /** The map records, for each group and candidate, the rows (columns)
      where it lies among the positions `ls`. */
  ghost predicate PlacesAgree(b: Board, ls: seq<Loc>, t: Place, m: map<(int, string), set<nat>>) {
    forall g, v :: Look(m, (g, v)) == PlacesIn(b, ls, t, g, v)
  }

  /** What the cell at `l` adds to the places of `v` in group `g`. */
  function Added(b: Board, l: Loc, t: Place, g: int, v: string): set<nat>
    requires OnBoard(b, l)
  {
    if g == At(b, l).group && v in CandidatesAt(b, l) then {Coord(t, l)} else {}
  }

  /** One more position scanned. */
  lemma PlacesStep(b: Board, ls: seq<Loc>, l: Loc, t: Place, m0: map<(int, string), set<nat>>,
                   m: map<(int, string), set<nat>>)
    requires OnBoard(b, l) && PlacesAgree(b, ls, t, m0)
    requires forall g, v :: Look(m, (g, v)) == Look(m0, (g, v)) + Added(b, l, t, g, v)
    ensures PlacesAgree(b, ls + [l], t, m)
  {
    forall g, v ensures Look(m, (g, v)) == PlacesIn(b, ls + [l], t, g, v) {
      assert Look(m0, (g, v)) == PlacesIn(b, ls, t, g, v);
    }
  }

  /** The inner loop of the first pass: the cell's group gains place `k`
      for each of the cell's candidates. */
  method AddPlaces<K(==)>(m0: map<(int, K), set<nat>>, g: int, cands: seq<K>, k: nat)
    returns (m: map<(int, K), set<nat>>)
    ensures forall h, v :: Look(m, (h, v)) == Look(m0, (h, v)) + (if h == g && v in cands then {k} else {})
  {
    m := m0;
    var j := 0;
    while j < |cands|
      invariant 0 <= j <= |cands|
      invariant forall h, v :: Look(m, (h, v)) == Look(m0, (h, v)) + (if h == g && v in cands[..j] then {k} else {})
    {
      assert cands[..j + 1] == cands[..j] + [cands[j]];
      m := m[(g, cands[j]) := Look(m, (g, cands[j])) + {k}];
      j := j + 1;
    }
    assert cands[..j] == cands;
  }

  /** One row of the first two passes: every position of row `y` adds its
      group and candidates under its row and under its column. */
  method CollectRow(b: Board, y: nat, rows0: map<(int, string), set<nat>>, cols0: map<(int, string), set<nat>>)
    returns (rows: map<(int, string), set<nat>>, cols: map<(int, string), set<nat>>)
    requires y < |b|
    requires PlacesAgree(b, LocsUpTo(b, y), Row, rows0) && PlacesAgree(b, LocsUpTo(b, y), Col, cols0)
    ensures PlacesAgree(b, LocsUpTo(b, y + 1), Row, rows) && PlacesAgree(b, LocsUpTo(b, y + 1), Col, cols)
  {
    rows, cols := rows0, cols0;
    var x := 0;
    PrefixStep(b, y, 0);
    while x < |b[y]|
      invariant 0 <= x <= |b[y]|
      invariant PlacesAgree(b, Prefix(b, y, x), Row, rows) && PlacesAgree(b, Prefix(b, y, x), Col, cols)
    {
      var l := Loc(x, y);
      var gc := b[y][x];
      ghost var rowsBefore, colsBefore := rows, cols;
      rows := AddPlaces(rows, gc.group, gc.cell.candidates, y);
      cols := AddPlaces(cols, gc.group, gc.cell.candidates, x);
      PlacesStep(b, Prefix(b, y, x), l, Row, rowsBefore, rows);
      PlacesStep(b, Prefix(b, y, x), l, Col, colsBefore, cols);
      PrefixStep(b, y, x);
      x := x + 1;
    }
    PrefixStep(b, y, x);
  }

  /** The first two passes of Go, which build the same relation twice
      (group to place to candidates, then group to candidate to places):
      for each group and candidate, the rows and the columns where it
      lies. */
  method CollectPlaces(b: Board) returns (rows: map<(int, string), set<nat>>, cols: map<(int, string), set<nat>>)
    ensures PlacesAgree(b, AllLocs(b), Row, rows) && PlacesAgree(b, AllLocs(b), Col, cols)
  {
    rows, cols := map[], map[];
    var y := 0;
    while y < |b|
      invariant 0 <= y <= |b|
      invariant PlacesAgree(b, LocsUpTo(b, y), Row, rows) && PlacesAgree(b, LocsUpTo(b, y), Col, cols)
    {
      rows, cols := CollectRow(b, y, rows, cols);
      y := y + 1;
    }
  }

  // ----- second pass: the holders ------------------------------------------

  lemma SingletonSet<T>(s: set<T>, k: T)
    requires |s| == 1 && k in s
    ensures s == {k}
  {
    var r := s - {k};
    assert s == r + {k};
  }

  /** The holders after the entries outside `todo` were read: a candidate
      is filed under (group, place) when that is its only place. */
  ghost predicate HoldAgree<K(!new)>(places: map<(int, K), set<nat>>, todo: set<(int, K)>, hold: map<(int, nat), set<K>>) {
    forall g, k: nat, v :: v in Look(hold, (g, k)) <==> (g, v) in places && (g, v) !in todo && places[(g, v)] == {k}
  }

  /** Reading an entry with a single place files it there. */
  lemma HoldFile<K(!new)>(places: map<(int, K), set<nat>>, todo: set<(int, K)>, hold: map<(int, nat), set<K>>,
                    key: (int, K), k: nat)
    requires key in todo && key in places && places[key] == {k} && HoldAgree(places, todo, hold)
    ensures HoldAgree(places, todo - {key}, hold[(key.0, k) := Look(hold, (key.0, k)) + {key.1}])
  {
  }

  /** Reading an entry with several places, or none, files nothing. */
  lemma HoldSkip<K(!new)>(places: map<(int, K), set<nat>>, todo: set<(int, K)>, hold: map<(int, nat), set<K>>,
                    key: (int, K))
    requires key in todo && key in places && HoldAgree(places, todo, hold)
    requires forall k: nat :: places[key] != {k}
    ensures HoldAgree(places, todo - {key}, hold)
  {
  }

  /** For one place type: each candidate of a group that lies in a single
      place, filed under that group and place. */
  method Holders<K(==,!new)>(places: map<(int, K), set<nat>>) returns (hold: map<(int, nat), set<K>>)
    ensures forall g, k: nat, v :: v in Look(hold, (g, k)) <==> Look(places, (g, v)) == {k}
    ensures forall h :: h in hold ==> hold[h] != {}
  {
    hold := map[];
    var todo := places.Keys;
    while todo != {}
      invariant todo <= places.Keys
      invariant HoldAgree(places, todo, hold)
      invariant forall h :: h in hold ==> hold[h] != {}
      decreases |todo|
    {
      var key :| key in todo;
      var s := places[key];
      if |s| == 1 {
        var k :| k in s;
        SingletonSet(s, k);
        HoldFile(places, todo, hold, key, k);
        hold := hold[(key.0, k) := Look(hold, (key.0, k)) + {key.1}];
      } else {
        forall k: nat ensures s != {k} {
        }
        HoldSkip(places, todo, hold, key);
      }
      todo := todo - {key};
    }
    forall g, k: nat, v ensures v in Look(hold, (g, k)) <==> Look(places, (g, v)) == {k} {
      assert v in Look(hold, (g, k)) <==> (g, v) in places && places[(g, v)] == {k};
    }
  }

  /** The holders' candidate sets are the `Hold` sets of the board. */
  lemma HoldersMeaning(b: Board, t: Place, places: map<(int, string), set<nat>>, hold: map<(int, nat), set<string>>)
    requires PlacesAgree(b, AllLocs(b), t, places)
    requires forall g, k: nat, v :: v in Look(hold, (g, k)) <==> Look(places, (g, v)) == {k}
    ensures forall g, k: nat :: Look(hold, (g, k)) == Hold(b, t, g, k)
  {
    forall g, k: nat ensures Look(hold, (g, k)) == Hold(b, t, g, k) {
      forall v ensures v in Look(hold, (g, k)) <==> v in Hold(b, t, g, k) {
        HoldMeaning(b, t, g, k, v);
        assert Look(places, (g, v)) == Places(b, t, g, v);
      }
    }
  }

  // ----- third pass: the sorted holder lists --------------------------------

  /** A holder: a group, a row (or column) number, and the candidates the
      group holds only there. */
  datatype Holder = Holder(group: int, loc: nat, candidates: seq<string>)

  /** Go's sort order on holders: by group, then by place. */
  predicate PairLe(a: (int, nat), b: (int, nat)) {
    a.0 < b.0 || (a.0 == b.0 && a.1 <= b.1)
  }

  lemma PairLeIsTotalOrder()
    ensures TotalOrder(PairLe)
  {
  }

  /** Reads a set out into a list, as iterating a Go map does: in no
      particular order, each member once. */
  method ListOf<T>(s: set<T>) returns (list: seq<T>)
    ensures NoDup(list)
    ensures forall x :: x in list <==> x in s
  {
    list := [];
    var rest := s;
    while rest != {}
      invariant rest <= s && NoDup(list)
      invariant forall x :: x in list <==> x in s && x !in rest
      decreases |rest|
    {
      var x :| x in rest;
      list := list + [x];
      rest := rest - {x};
    }
  }

  /** The holder list of one place type: sorted by group and place, one
      entry per (group, place) that holds something, with its `Hold`
      set. */
  ghost predicate Listed(b: Board, t: Place, slice: seq<Holder>) {
    && (forall i, j :: 0 <= i < j < |slice| ==>
          PairLe((slice[i].group, slice[i].loc), (slice[j].group, slice[j].loc)) &&
          (slice[i].group, slice[i].loc) != (slice[j].group, slice[j].loc))
    && (forall i :: 0 <= i < |slice| ==>
          (set v | v in slice[i].candidates) == Hold(b, t, slice[i].group, slice[i].loc) &&
          Hold(b, t, slice[i].group, slice[i].loc) != {})
    && (forall g, k: nat :: Hold(b, t, g, k) != {} ==>
          exists i :: 0 <= i < |slice| && slice[i].group == g && slice[i].loc == k)
  }

  /** The keys of the holder map, sorted by group and place. */
  method SortedKeys(hold: map<(int, nat), set<string>>) returns (ks: seq<(int, nat)>)
    ensures SortedBy(ks, PairLe) && NoDup(ks)
    ensures forall h :: h in ks <==> h in hold
  {
    var keys := ListOf(hold.Keys);
    PairLeIsTotalOrder();
    SortFacts(keys, PairLe);
    ks := InsertionSort(keys, PairLe);
    PermutationNoDup(keys, ks);
    forall h ensures h in ks <==> h in hold {
      assert h in ks <==> h in multiset(ks);
      assert h in keys <==> h in multiset(keys);
    }
  }

  /** One holder per key, in key order, each with its candidates listed
      in no particular order. */
  method BuildHolders(hold: map<(int, nat), set<string>>, ks: seq<(int, nat)>) returns (slice: seq<Holder>)
    requires forall h :: h in ks ==> h in hold
    ensures |slice| == |ks|
    ensures forall i :: 0 <= i < |ks| ==>
      slice[i].group == ks[i].0 && slice[i].loc == ks[i].1 &&
      (set v | v in slice[i].candidates) == hold[ks[i]]
  {
    slice := [];
    var j := 0;
    while j < |ks|
      invariant 0 <= j <= |ks| && |slice| == j
      invariant forall i :: 0 <= i < j ==>
        slice[i].group == ks[i].0 && slice[i].loc == ks[i].1 &&
        (set v | v in slice[i].candidates) == hold[ks[i]]
    {
      var list := ListSymbols(hold[ks[j]]);
      assert (set v | v in list) == hold[ks[j]];
      slice := slice + [Holder(ks[j].0, ks[j].1, list)];
      j := j + 1;
    }
  }

  /** Go builds the list from the map and sorts it; the model sorts the
      keys and builds the list from them, which gives the same list. */
  method SortedHolders(ghost b: Board, ghost t: Place, hold: map<(int, nat), set<string>>)
    returns (slice: seq<Holder>)
    requires forall g, k: nat :: Look(hold, (g, k)) == Hold(b, t, g, k)
    requires forall h :: h in hold ==> hold[h] != {}
    ensures Listed(b, t, slice)
  {
    var ks := SortedKeys(hold);
    slice := BuildHolders(hold, ks);
    ListedFrom(b, t, hold, ks, slice);
  }

  lemma ListedFrom(b: Board, t: Place, hold: map<(int, nat), set<string>>, ks: seq<(int, nat)>, slice: seq<Holder>)
    requires forall g, k: nat :: Look(hold, (g, k)) == Hold(b, t, g, k)
    requires forall h :: h in hold ==> hold[h] != {}
    requires SortedBy(ks, PairLe) && NoDup(ks)
    requires forall h :: h in ks <==> h in hold
    requires |slice| == |ks|
    requires forall i :: 0 <= i < |ks| ==>
      slice[i].group == ks[i].0 && slice[i].loc == ks[i].1 &&
      (set v | v in slice[i].candidates) == hold[ks[i]]
    ensures Listed(b, t, slice)
  {
    forall i | 0 <= i < |slice|
      ensures (set v | v in slice[i].candidates) == Hold(b, t, slice[i].group, slice[i].loc)
      ensures Hold(b, t, slice[i].group, slice[i].loc) != {}
    {
      assert ks[i] in hold;
      assert Look(hold, (ks[i].0, ks[i].1)) == hold[ks[i]];
    }
    forall i, j | 0 <= i < j < |slice|
      ensures PairLe((slice[i].group, slice[i].loc), (slice[j].group, slice[j].loc))
      ensures (slice[i].group, slice[i].loc) != (slice[j].group, slice[j].loc)
    {
      assert (slice[i].group, slice[i].loc) == ks[i] && (slice[j].group, slice[j].loc) == ks[j];
    }
    forall g, k: nat | Hold(b, t, g, k) != {}
      ensures exists i :: 0 <= i < |slice| && slice[i].group == g && slice[i].loc == k
    {
      assert Look(hold, (g, k)) != {};
      assert (g, k) in ks;
      var i :| 0 <= i < |ks| && ks[i] == (g, k);
      assert slice[i].group == g && slice[i].loc == k;
    }
  }

  // ----- fourth pass: the board scan ---------------------------------------

  /** Go's `slices.IndexFunc`: the first holder of place `k` whose group is
      not `t`, or -1. */
  method IndexOf(slice: seq<Holder>, k: nat, t: int) returns (i: int)
    ensures -1 <= i < |slice|
    ensures i >= 0 ==> slice[i].loc == k && slice[i].group != t
    ensures forall j :: 0 <= j < |slice| && (i == -1 || j < i) ==> !(slice[j].loc == k && slice[j].group != t)
  {
    i := 0;
    while i < |slice|
      invariant 0 <= i <= |slice|
      invariant forall j :: 0 <= j < i ==> !(slice[j].loc == k && slice[j].group != t)
    {
      if slice[i].loc == k && slice[i].group != t {
        return;
      }
      i := i + 1;
    }
    i := -1;
  }

  // ----- what one call does ------------------------------------------------

  /** `g` is the holder Go's `IndexFunc` picks for the cell at `l`: the
      smallest group other than the cell's own that holds something only
      in the cell's row (column). */
  ghost predicate FirstHolder(b: Board, t: Place, l: Loc, g: int)
    requires OnBoard(b, l)
  {
    && g != At(b, l).group && Hold(b, t, g, Coord(t, l)) != {}
    && forall g' :: g' < g && g' != At(b, l).group ==> Hold(b, t, g', Coord(t, l)) == {}
  }

  lemma FirstHolderUnique(b: Board, t: Place, l: Loc, g: int, g': int)
    requires OnBoard(b, l) && FirstHolder(b, t, l, g) && FirstHolder(b, t, l, g')
    ensures g == g'
  {
  }

  /** The rule of place type `t` takes nothing from the cell at `l`. */
  ghost predicate Quiet(b: Board, t: Place, l: Loc)
    requires OnBoard(b, l)
  {
    forall g :: FirstHolder(b, t, l, g) ==> Taken(CandidatesAt(b, l), Hold(b, t, g, Coord(t, l)) - {""}) == []
  }

  /** The rule of place type `t` takes something from the cell at `l`,
      asking it to drop `vs`: the candidates its first holder `g` holds
      only in the cell's row (column). */
  ghost predicate Fires(b: Board, t: Place, l: Loc, g: int, vs: seq<string>)
    requires OnBoard(b, l)
  {
    && FirstHolder(b, t, l, g)
    && (set v | v in vs) == Hold(b, t, g, Coord(t, l))
    && RemovedBy(At(b, l).cell, vs) != []
  }

  /** A removal request listing the set `h` takes the members of `h`
      other than "". */
  lemma RemovedAsked(c: Cell, vs: seq<string>, h: set<string>)
    requires (set v | v in vs) == h
    ensures RemovedBy(c, vs) == Taken(c.candidates, h - {""})
  {
    assert Requested(vs) == h - {""};
  }

  /** A rule fires at a cell exactly when it is not quiet there. */
  lemma FiresNotQuiet(b: Board, t: Place, l: Loc, g: int, vs: seq<string>)
    requires OnBoard(b, l) && Fires(b, t, l, g, vs)
    ensures !Quiet(b, t, l)
  {
    RemovedAsked(At(b, l).cell, vs, Hold(b, t, g, Coord(t, l)));
  }

  /** What `IndexFunc` finds on a holder list is the first holder. */
  lemma IndexFound(b: Board, t: Place, slice: seq<Holder>, l: Loc, i: int)
    requires OnBoard(b, l) && Listed(b, t, slice)
    requires 0 <= i < |slice| && slice[i].loc == Coord(t, l) && slice[i].group != At(b, l).group
    requires forall j :: 0 <= j < i ==> !(slice[j].loc == Coord(t, l) && slice[j].group != At(b, l).group)
    ensures FirstHolder(b, t, l, slice[i].group)
    ensures (set v | v in slice[i].candidates) == Hold(b, t, slice[i].group, Coord(t, l))
  {
    var k := Coord(t, l);
    forall g' | g' < slice[i].group && g' != At(b, l).group ensures Hold(b, t, g', k) == {} {
    }
  }

  /** When `IndexFunc` finds nothing, there is no holder to pick. */
  lemma IndexMissing(b: Board, t: Place, slice: seq<Holder>, l: Loc)
    requires OnBoard(b, l) && Listed(b, t, slice)
    requires forall j :: 0 <= j < |slice| ==> !(slice[j].loc == Coord(t, l) && slice[j].group != At(b, l).group)
    ensures forall g :: g != At(b, l).group ==> Hold(b, t, g, Coord(t, l)) == {}
  {
    forall g | g != At(b, l).group ensures Hold(b, t, g, Coord(t, l)) == {} {
    }
  }

  /** The rule of place type `t` at the cell at `l`, given the holder
      list: what to ask the cell to drop when that takes something. */
  method TryRule(b: Board, t: Place, slice: seq<Holder>, l: Loc) returns (vs: Option<seq<string>>)
    requires OnBoard(b, l) && Listed(b, t, slice)
    ensures vs.Some? ==> exists g :: Fires(b, t, l, g, vs.value)
    ensures vs.None? ==> Quiet(b, t, l)
  {
    var gc := b[l.y][l.x];
    var i := IndexOf(slice, Coord(t, l), gc.group);
    if i >= 0 {
      IndexFound(b, t, slice, l, i);
      var h := slice[i];
      RemovedAsked(gc.cell, h.candidates, Hold(b, t, h.group, Coord(t, l)));
      if RemovedBy(gc.cell, h.candidates) != [] {
        assert Fires(b, t, l, h.group, h.candidates);
        return Some(h.candidates);
      }
      forall g | FirstHolder(b, t, l, g)
        ensures Taken(CandidatesAt(b, l), Hold(b, t, g, Coord(t, l)) - {""}) == []
      {
        FirstHolderUnique(b, t, l, g, h.group);
      }
    } else {
      IndexMissing(b, t, slice, l);
    }
    return None;
  }

  /** The last pass: the board in row-major order, the row rule before the
      column rule at each cell; the first that takes something wins. */
  method ScanBoard(b: Board, rowSlice: seq<Holder>, colSlice: seq<Holder>) returns (r: Option<(Loc, seq<string>)>)
    requires Listed(b, Row, rowSlice) && Listed(b, Col, colSlice)
    ensures r.Some? ==> OnBoard(b, r.value.0)
    ensures r.Some? ==> exists g ::
      Fires(b, Row, r.value.0, g, r.value.1) || (Quiet(b, Row, r.value.0) && Fires(b, Col, r.value.0, g, r.value.1))
    ensures r.Some? ==> forall l :: OnBoard(b, l) && Before(l, r.value.0) ==> Quiet(b, Row, l) && Quiet(b, Col, l)
    ensures r.None? ==> forall l :: OnBoard(b, l) ==> Quiet(b, Row, l) && Quiet(b, Col, l)
  {
    var y := 0;
    while y < |b|
      invariant 0 <= y <= |b|
      invariant forall l :: OnBoard(b, l) && l.y < y ==> Quiet(b, Row, l) && Quiet(b, Col, l)
    {
      var x := 0;
      while x < |b[y]|
        invariant 0 <= x <= |b[y]|
        invariant forall l :: OnBoard(b, l) && Before(l, Loc(x, y)) ==> Quiet(b, Row, l) && Quiet(b, Col, l)
      {
        var l := Loc(x, y);
        var vs := TryRule(b, Row, rowSlice, l);
        if vs.Some? {
          return Some((l, vs.value));
        }
        vs := TryRule(b, Col, colSlice, l);
        if vs.Some? {
          return Some((l, vs.value));
        }
        x := x + 1;
      }
      y := y + 1;
    }
    return None;
  }

  // ----- the eliminator ------------------------------------------------------

  /** With no holder anywhere, no cell has a first holder, so every cell is
      quiet under both rules. */
  lemma NoHoldersQuiet(b: Board, rowHold: map<(int, nat), set<string>>, colHold: map<(int, nat), set<string>>)
    requires |rowHold| == 0 && |colHold| == 0
    requires forall g, k: nat :: Look(rowHold, (g, k)) == Hold(b, Row, g, k)
    requires forall g, k: nat :: Look(colHold, (g, k)) == Hold(b, Col, g, k)
    ensures forall l :: OnBoard(b, l) ==> Quiet(b, Row, l) && Quiet(b, Col, l)
  {
    forall l, t, g | OnBoard(b, l) ensures !FirstHolder(b, t, l, g) {
      assert Look(rowHold, (g, Coord(t, l))) == {} && Look(colHold, (g, Coord(t, l))) == {};
    }
  }

  /** All passes up to the removal: the cell to clear and the candidates
      to ask it to drop, or `None` when no rule takes anything anywhere. */
  method Scan(b: Board) returns (r: Option<(Loc, seq<string>)>)
    ensures r.Some? ==> OnBoard(b, r.value.0)
    ensures r.Some? ==> exists g ::
      Fires(b, Row, r.value.0, g, r.value.1) || (Quiet(b, Row, r.value.0) && Fires(b, Col, r.value.0, g, r.value.1))
    ensures r.Some? ==> forall l :: OnBoard(b, l) && Before(l, r.value.0) ==> Quiet(b, Row, l) && Quiet(b, Col, l)
    ensures r.None? ==> forall l :: OnBoard(b, l) ==> Quiet(b, Row, l) && Quiet(b, Col, l)
  {
    var rows, cols := CollectPlaces(b);
    var rowHold := Holders(rows);
    var colHold := Holders(cols);
    HoldersMeaning(b, Row, rows, rowHold);
    HoldersMeaning(b, Col, cols, colHold);
    if |rowHold| == 0 && |colHold| == 0 {
      NoHoldersQuiet(b, rowHold, colHold);
      return None;
    }
    var rowSlice := SortedHolders(b, Row, rowHold);
    var colSlice := SortedHolders(b, Col, colHold);
    r := ScanBoard(b, rowSlice, colSlice);
  }

  /** One Group and Row/Column step on the game: the first cell, in
      row-major order, that a rule takes something from loses it, and the
      outcome reports what went; nothing changes otherwise. */
  method Eliminate(g: Game) returns (out: Outcome)
    modifies g
    ensures !out.Failed?
    ensures out.Unchanged? ==>
      g.board == old(g.board) && forall l :: OnBoard(old(g.board), l) ==> Quiet(old(g.board), Row, l) && Quiet(old(g.board), Col, l)
    ensures out.Changed? ==> exists vs, grp ::
      && OnBoard(old(g.board), out.loc)
      && (Fires(old(g.board), Row, out.loc, grp, vs) ||
          (Quiet(old(g.board), Row, out.loc) && Fires(old(g.board), Col, out.loc, grp, vs)))
      && (forall l :: OnBoard(old(g.board), l) && Before(l, out.loc) ==>
            Quiet(old(g.board), Row, l) && Quiet(old(g.board), Col, l))
      && out.removed == RemovedBy(At(old(g.board), out.loc).cell, vs)
      && g.board == WithCell(old(g.board), out.loc, Removal(At(old(g.board), out.loc).cell, vs))
    ensures g.symbols == old(g.symbols) && g.lastFilled == old(g.lastFilled) && g.config == old(g.config)
  {
    var r := Scan(g.board);
    if r.None? {
      return Unchanged;
    }
    var (l, vs) := r.value;
    var removed := g.RemoveCandidates(l, vs);
    out := Changed(l, removed);
  }

  // ----- why the removal is sound --------------------------------------------

  /** When a rule fires at `l` with holder `g`, the cell lies outside `g`,
      every candidate it loses lies, within group `g`, only in the cell's
      row (column), and the cell loses at least one candidate. */
  lemma FiresSound(b: Board, t: Place, l: Loc, g: int, vs: seq<string>)
    requires OnBoard(b, l) && Fires(b, t, l, g, vs)
    ensures At(b, l).group != g
    ensures RemovedBy(At(b, l).cell, vs) != []
    ensures forall v, m :: v in vs && OnBoard(b, m) && At(b, m).group == g && v in CandidatesAt(b, m) ==>
      Coord(t, m) == Coord(t, l)
  {
    forall v, m | v in vs && OnBoard(b, m) && At(b, m).group == g && v in CandidatesAt(b, m)
      ensures Coord(t, m) == Coord(t, l)
    {
      assert v in Hold(b, t, g, Coord(t, l));
      HoldMeaning(b, t, g, Coord(t, l), v);
      PlacesMeaning(b, t, g, v);
      assert Coord(t, m) in Places(b, t, g, v);
    }
  }
}
