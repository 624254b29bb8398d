/** Facts about sequences that the Sudoku engine relies on: duplicate-freedom,
    order-preserving subsequences, the two halves of a filter, the
    byte-wise string order that Go's `slices.Sort` uses, and an insertion
    sort that stands for the library sorts called by the engine. */
module Seqs {

  predicate NoDup<T(==)>(s: seq<T>) {
    forall i, j :: 0 <= i < j < |s| ==> s[i] != s[j]
  }

  /** `a` is `b` with some elements deleted; the rest keep their order. */
  predicate IsSubseq<T(==)>(a: seq<T>, b: seq<T>)
    decreases |b|
  {
    a == [] ||
    (b != [] && ((a[0] == b[0] && IsSubseq(a[1..], b[1..])) || IsSubseq(a, b[1..])))
  }

  lemma {:induction false} SubseqRefl<T>(s: seq<T>)
    ensures IsSubseq(s, s)
    decreases |s|
  {
    if s != [] {
      SubseqRefl(s[1..]);
    }
  }

  lemma {:induction false} SubseqFacts<T>(a: seq<T>, b: seq<T>)
    requires IsSubseq(a, b)
    ensures |a| <= |b|
    ensures forall x :: x in a ==> x in b
    ensures multiset(a) <= multiset(b)
    decreases |b|
  {
    if a != [] {
      if a[0] == b[0] && IsSubseq(a[1..], b[1..]) {
        SubseqFacts(a[1..], b[1..]);
        assert a == [a[0]] + a[1..];
        assert b == [b[0]] + b[1..];
      } else {
        SubseqFacts(a, b[1..]);
        assert b == [b[0]] + b[1..];
      }
    }
  }

  lemma {:induction false} SubseqOfEmpty<T>(a: seq<T>)
    requires IsSubseq(a, [])
    ensures a == []
  {
  }

  lemma {:induction false} SubseqDropHead<T>(a: seq<T>, b: seq<T>)
    requires a != [] && IsSubseq(a, b)
    ensures IsSubseq(a[1..], b)
    decreases |b|
  {
    if a[0] == b[0] && IsSubseq(a[1..], b[1..]) {
      if a[1..] != [] {
        SubseqDropHead(a[1..], b[1..]);
        assert a[1..][1..] == a[2..];
      }
    } else {
      SubseqDropHead(a, b[1..]);
    }
  }

  lemma {:induction false} SubseqTrans<T>(a: seq<T>, b: seq<T>, c: seq<T>)
    requires IsSubseq(a, b) && IsSubseq(b, c)
    ensures IsSubseq(a, c)
    decreases |c|
  {
    if a == [] {
    } else if b[0] == c[0] && IsSubseq(b[1..], c[1..]) {
      if a[0] == b[0] && IsSubseq(a[1..], b[1..]) {
        SubseqTrans(a[1..], b[1..], c[1..]);
      } else {
        SubseqTrans(a, b[1..], c[1..]);
      }
    } else {
      SubseqTrans(a, b, c[1..]);
    }
  }

  /** A subsequence of a duplicate-free sequence is duplicate-free. */
  lemma {:induction false} SubseqNoDup<T>(a: seq<T>, b: seq<T>)
    requires IsSubseq(a, b) && NoDup(b)
    ensures NoDup(a)
    decreases |b|
  {
    if a != [] {
      assert NoDup(b[1..]) by {
        forall i, j | 0 <= i < j < |b[1..]| ensures b[1..][i] != b[1..][j] {
          assert b[1..][i] == b[i + 1] && b[1..][j] == b[j + 1];
        }
      }
      if a[0] == b[0] && IsSubseq(a[1..], b[1..]) {
        SubseqNoDup(a[1..], b[1..]);
        SubseqFacts(a[1..], b[1..]);
        forall i, j | 0 <= i < j < |a| ensures a[i] != a[j] {
          if i == 0 {
            assert a[j] == a[1..][j - 1];
            assert a[j] in b[1..];
            var k :| 0 <= k < |b[1..]| && b[1..][k] == a[j];
            assert b[k + 1] == a[j];
          } else {
            assert a[i] == a[1..][i - 1] && a[j] == a[1..][j - 1];
          }
        }
      } else {
        SubseqNoDup(a, b[1..]);
      }
    }
  }

  /** A sub-list as long as the list is the list itself. */
  lemma {:induction false} SubseqSameLength<T>(a: seq<T>, b: seq<T>)
    requires IsSubseq(a, b) && |a| == |b|
    ensures a == b
    decreases |b|
  {
    if a != [] {
      if a[0] == b[0] && IsSubseq(a[1..], b[1..]) {
        SubseqSameLength(a[1..], b[1..]);
        assert a == [a[0]] + a[1..] && b == [b[0]] + b[1..];
      } else {
        SubseqFacts(a, b[1..]);
      }
    }
  }

  /** The elements of `s` outside `drop`, in their order in `s`. */
  function Keep<T(==)>(s: seq<T>, drop: set<T>): seq<T>
  {
    if s == [] then []
    else if s[0] in drop then Keep(s[1..], drop)
    else [s[0]] + Keep(s[1..], drop)
  }

  /** The elements of `s` inside `drop`, in their order in `s`. */
  function Taken<T(==)>(s: seq<T>, drop: set<T>): seq<T>
  {
    if s == [] then []
    else if s[0] in drop then [s[0]] + Taken(s[1..], drop)
    else Taken(s[1..], drop)
  }

  /** `Keep` and `Taken` split `s` in two: what survives keeps its order and
      loses exactly the members of `drop`, and what is taken is exactly the
      members of `s` that lie in `drop`. */
  lemma {:induction false} FilterFacts<T>(s: seq<T>, drop: set<T>)
    ensures IsSubseq(Keep(s, drop), s) && IsSubseq(Taken(s, drop), s)
    ensures forall x :: x in Keep(s, drop) <==> x in s && x !in drop
    ensures forall x :: x in Taken(s, drop) <==> x in s && x in drop
    ensures |Keep(s, drop)| + |Taken(s, drop)| == |s|
    ensures Taken(s, drop) == [] <==> Keep(s, drop) == s
    ensures NoDup(s) ==> NoDup(Keep(s, drop)) && NoDup(Taken(s, drop))
    decreases |s|
  {
    if s == [] {
    } else {
      FilterFacts(s[1..], drop);
      SubseqRefl(s[1..]);
      if s[0] in drop {
        assert ([s[0]] + Taken(s[1..], drop))[1..] == Taken(s[1..], drop);
        assert |Keep(s, drop)| < |s|;
      } else {
        assert ([s[0]] + Keep(s[1..], drop))[1..] == Keep(s[1..], drop);
        assert Keep(s, drop) == s <==> Keep(s[1..], drop) == s[1..] by {
          assert s == [s[0]] + s[1..];
        }
      }
      assert s == [s[0]] + s[1..];
      if NoDup(s) {
        assert NoDup(s[1..]) by {
          forall i, j | 0 <= i < j < |s[1..]| ensures s[1..][i] != s[1..][j] {
            assert s[1..][i] == s[i + 1] && s[1..][j] == s[j + 1];
          }
        }
        SubseqNoDup(Keep(s, drop), s);
        SubseqNoDup(Taken(s, drop), s);
      }
    }
  }

  /** Nothing is taken exactly when no element of `s` lies in `drop`. */
  lemma {:induction false} TakenNone<T>(s: seq<T>, drop: set<T>)
    ensures Taken(s, drop) == [] <==> forall x :: x in s ==> x !in drop
    decreases |s|
  {
    if s != [] {
      assert s[0] in s;
      TakenNone(s[1..], drop);
    }
  }

  /** Filters that agree on the members of `s` select the same elements. */
  lemma {:induction false} FilterAgree<T>(s: seq<T>, d1: set<T>, d2: set<T>)
    requires forall x :: x in s ==> (x in d1 <==> x in d2)
    ensures Keep(s, d1) == Keep(s, d2) && Taken(s, d1) == Taken(s, d2)
    decreases |s|
  {
    if s != [] {
      assert s[0] in s;
      FilterAgree(s[1..], d1, d2);
    }
  }

  /** Dropping the complement of `d2` keeps what `d2` would take. */
  lemma {:induction false} KeepComplement<T>(s: seq<T>, d1: set<T>, d2: set<T>)
    requires forall x :: x in s ==> (x in d1 <==> x !in d2)
    ensures Keep(s, d1) == Taken(s, d2)
    decreases |s|
  {
    if s != [] {
      assert s[0] in s;
      KeepComplement(s[1..], d1, d2);
    }
  }

  /** Keeping nothing of `drop` leaves nothing of `drop` behind, and survivors
      of two successive filters are the survivors of one filter by the union. */
  lemma {:induction false} KeepTwice<T>(s: seq<T>, d1: set<T>, d2: set<T>)
    ensures Keep(Keep(s, d1), d2) == Keep(s, d1 + d2)
    decreases |s|
  {
    if s != [] {
      KeepTwice(s[1..], d1, d2);
      if s[0] !in d1 {
        assert ([s[0]] + Keep(s[1..], d1))[1..] == Keep(s[1..], d1);
      }
    }
  }

  /** Filtering a list grown at the back: the survivors grow with it when
      the new element survives. */
  lemma {:induction false} KeepSnoc<T>(s: seq<T>, x: T, drop: set<T>)
    ensures Keep(s + [x], drop) == Keep(s, drop) + (if x in drop then [] else [x])
    decreases |s|
  {
    if s == [] {
      assert s + [x] == [x];
    } else {
      assert (s + [x])[1..] == s[1..] + [x];
      KeepSnoc(s[1..], x, drop);
    }
  }

  /** The byte-wise order Go uses to compare strings (code-point order on
      characters, which UTF-8 preserves); a proper prefix comes first. */
  predicate StrLe(a: string, b: string)
    decreases |a|
  {
    |a| == 0 || (|b| > 0 && (a[0] < b[0] || (a[0] == b[0] && StrLe(a[1..], b[1..]))))
  }

  lemma {:induction false} StrLeAntisym(a: string, b: string)
    requires StrLe(a, b) && StrLe(b, a)
    ensures a == b
    decreases |a|
  {
    if |a| > 0 {
      StrLeAntisym(a[1..], b[1..]);
      assert a == [a[0]] + a[1..] && b == [b[0]] + b[1..];
    }
  }

  lemma {:induction false} StrLeTrans(a: string, b: string, c: string)
    requires StrLe(a, b) && StrLe(b, c)
    ensures StrLe(a, c)
    decreases |a|
  {
    if |a| > 0 && a[0] == b[0] && b[0] == c[0] {
      StrLeTrans(a[1..], b[1..], c[1..]);
    }
  }

  lemma {:induction false} StrLeTotal(a: string, b: string)
    ensures StrLe(a, b) || StrLe(b, a)
    decreases |a|
  {
    if |a| > 0 && |b| > 0 && a[0] == b[0] {
      StrLeTotal(a[1..], b[1..]);
    }
  }

  /** `le` is a total order: antisymmetric, transitive and total. */
  ghost predicate TotalOrder<T(!new)>(le: (T, T) -> bool) {
    && (forall x, y :: le(x, y) && le(y, x) ==> x == y)
    && (forall x, y, z :: le(x, y) && le(y, z) ==> le(x, z))
    && (forall x, y :: le(x, y) || le(y, x))
  }

  lemma StrLeIsTotalOrder()
    ensures TotalOrder(StrLe)
  {
    forall x, y | StrLe(x, y) && StrLe(y, x) ensures x == y {
      StrLeAntisym(x, y);
    }
    forall x, y, z | StrLe(x, y) && StrLe(y, z) ensures StrLe(x, z) {
      StrLeTrans(x, y, z);
    }
    forall x, y ensures StrLe(x, y) || StrLe(y, x) {
      StrLeTotal(x, y);
    }
  }

  predicate SortedBy<T(==)>(s: seq<T>, le: (T, T) -> bool) {
    forall i, j :: 0 <= i < j < |s| ==> le(s[i], s[j])
  }

  function Insert<T(==)>(x: T, s: seq<T>, le: (T, T) -> bool): seq<T>
  {
    if s == [] then [x]
    else if le(x, s[0]) then [x] + s
    else [s[0]] + Insert(x, s[1..], le)
  }

  /** Insertion sort by `le`; it stands for the library sorts the engine
      calls (`slices.Sort`, `slices.SortFunc`), whose algorithm is not part
      of the model: only its result, the sorted permutation, matters. */
  function InsertionSort<T(==)>(s: seq<T>, le: (T, T) -> bool): seq<T>
  {
    if s == [] then [] else Insert(s[0], InsertionSort(s[1..], le), le)
  }

  /** When `x` goes after `s[0]`, `s[0]` is below everything that follows
      it in the result: `x` and the rest of `s`. */
  lemma InsertHeadLe<T(!new)>(x: T, s: seq<T>, le: (T, T) -> bool, y: T)
    requires TotalOrder(le) && SortedBy(s, le) && s != [] && !le(x, s[0])
    requires y in multiset(s[1..]) + multiset{x}
    ensures le(s[0], y)
  {
    if y != x {
      assert y in s[1..];
      var k :| 0 <= k < |s[1..]| && s[1..][k] == y;
      assert s[k + 1] == y;
    }
  }

  lemma {:induction false} InsertFacts<T(!new)>(x: T, s: seq<T>, le: (T, T) -> bool)
    requires TotalOrder(le) && SortedBy(s, le)
    ensures SortedBy(Insert(x, s, le), le)
    ensures multiset(Insert(x, s, le)) == multiset(s) + multiset{x}
    decreases |s|
  {
    if s == [] || le(x, s[0]) {
      InsertFront(x, s, le);
    } else {
      InsertFacts(x, s[1..], le);
      InsertBehind(x, s, le);
    }
  }

  /** `x` goes in front when it is below the head. */
  lemma InsertFront<T(!new)>(x: T, s: seq<T>, le: (T, T) -> bool)
    requires TotalOrder(le) && SortedBy(s, le) && (s == [] || le(x, s[0]))
    ensures SortedBy(Insert(x, s, le), le)
    ensures multiset(Insert(x, s, le)) == multiset(s) + multiset{x}
  {
    if s != [] {
      forall y | y in s ensures le(x, y) {
        var k :| 0 <= k < |s| && s[k] == y;
        if k > 0 {
          assert le(s[0], s[k]);
        }
      }
      SortedCons(x, s, le);
    }
  }

  /** `x` goes behind the head: the head stays below the rest. */
  lemma InsertBehind<T(!new)>(x: T, s: seq<T>, le: (T, T) -> bool)
    requires TotalOrder(le) && SortedBy(s, le) && s != [] && !le(x, s[0])
    requires SortedBy(Insert(x, s[1..], le), le)
    requires multiset(Insert(x, s[1..], le)) == multiset(s[1..]) + multiset{x}
    ensures SortedBy(Insert(x, s, le), le)
    ensures multiset(Insert(x, s, le)) == multiset(s) + multiset{x}
  {
    var t := Insert(x, s[1..], le);
    assert s == [s[0]] + s[1..];
    forall y | y in t ensures le(s[0], y) {
      assert y in multiset(t);
      InsertHeadLe(x, s, le, y);
    }
    SortedCons(s[0], t, le);
  }

  /** Putting an element below all of a sorted list in front keeps it
      sorted. */
  lemma SortedCons<T>(a: T, t: seq<T>, le: (T, T) -> bool)
    requires SortedBy(t, le) && forall y :: y in t ==> le(a, y)
    ensures SortedBy([a] + t, le)
  {
    var r := [a] + t;
    forall i, j | 0 <= i < j < |r| ensures le(r[i], r[j]) {
      assert r[j] == t[j - 1];
      if i > 0 {
        assert r[i] == t[i - 1];
      }
    }
  }

  /** The sort orders its input and is a permutation of it. */
  lemma {:induction false} SortFacts<T(!new)>(s: seq<T>, le: (T, T) -> bool)
    requires TotalOrder(le)
    ensures SortedBy(InsertionSort(s, le), le)
    ensures multiset(InsertionSort(s, le)) == multiset(s)
    ensures |InsertionSort(s, le)| == |s|
    decreases |s|
  {
    if s != [] {
      SortFacts(s[1..], le);
      InsertFacts(s[0], InsertionSort(s[1..], le), le);
      assert s == [s[0]] + s[1..];
    }
    assert |multiset(InsertionSort(s, le))| == |InsertionSort(s, le)|;
  }

  lemma {:induction false} SortedTail<T>(a: seq<T>, le: (T, T) -> bool)
    requires a != [] && SortedBy(a, le)
    ensures SortedBy(a[1..], le)
  {
    forall i, j | 0 <= i < j < |a[1..]| ensures le(a[1..][i], a[1..][j]) {
      assert a[1..][i] == a[i + 1] && a[1..][j] == a[j + 1];
    }
  }

  /** The head of a sorted sequence is below every element. */
  lemma {:induction false} SortedHeadLeast<T>(a: seq<T>, x: T, le: (T, T) -> bool)
    requires SortedBy(a, le) && x in multiset(a)
    ensures le(a[0], x) || a[0] == x
  {
    var i :| 0 <= i < |a| && a[i] == x;
    if i > 0 { assert le(a[0], a[i]); }
  }

  /** Two sequences sorted by a total order that hold the same elements are
      equal: a sorted permutation is unique. */
  lemma {:induction false} SortedUnique<T(!new)>(a: seq<T>, b: seq<T>, le: (T, T) -> bool)
    requires TotalOrder(le) && SortedBy(a, le) && SortedBy(b, le)
    requires multiset(a) == multiset(b)
    ensures a == b
    decreases |a|
  {
    assert |a| == |multiset(a)| == |multiset(b)| == |b|;
    if a != [] {
      assert a[0] in multiset(b) && b[0] in multiset(a);
      SortedHeadLeast(b, a[0], le);
      SortedHeadLeast(a, b[0], le);
      assert a[0] == b[0];
      assert a == [a[0]] + a[1..] && b == [b[0]] + b[1..];
      assert multiset(a[1..]) == multiset(a) - multiset{a[0]};
      assert multiset(b[1..]) == multiset(b) - multiset{b[0]};
      SortedTail(a, le);
      SortedTail(b, le);
      SortedUnique(a[1..], b[1..], le);
    }
  }

  /** A sequence is duplicate-free exactly when no element occurs twice in
      its multiset; so duplicate-freedom survives any permutation. */
  lemma {:induction false} NoDupCount<T>(s: seq<T>)
    ensures NoDup(s) <==> forall x :: multiset(s)[x] <= 1
    decreases |s|
  {
    if s != [] {
      var t := s[1..];
      NoDupCount(t);
      assert s == [s[0]] + t;
      assert multiset(s) == multiset{s[0]} + multiset(t);
      if NoDup(s) {
        assert NoDup(t) by {
          forall i, j | 0 <= i < j < |t| ensures t[i] != t[j] {
            assert t[i] == s[i + 1] && t[j] == s[j + 1];
          }
        }
      }
      if forall x :: multiset(s)[x] <= 1 {
        assert forall x :: multiset(t)[x] <= 1 by {
          forall x ensures multiset(t)[x] <= 1 {
            assert multiset(s)[x] >= multiset(t)[x];
          }
        }
        assert multiset(t)[s[0]] == 0 by {
          assert multiset(s)[s[0]] == 1 + multiset(t)[s[0]];
        }
        forall i, j | 0 <= i < j < |s| ensures s[i] != s[j] {
          if i == 0 {
            assert s[j] == t[j - 1];
            assert s[j] in multiset(t);
          } else {
            assert s[i] == t[i - 1] && s[j] == t[j - 1];
          }
        }
      }
    }
  }

  lemma PermutationNoDup<T>(a: seq<T>, b: seq<T>)
    requires multiset(a) == multiset(b) && NoDup(a)
    ensures NoDup(b)
  {
    NoDupCount(a);
    NoDupCount(b);
  }

  /** A list without repeats has as many elements as its set of members. */
  lemma {:induction false} NoDupCard<T>(s: seq<T>)
    requires NoDup(s)
    ensures |(set x | x in s)| == |s|
    decreases |s|
  {
    if s != [] {
      var t := s[1..];
      assert NoDup(t) by {
        forall i, j | 0 <= i < j < |t| ensures t[i] != t[j] {
          assert t[i] == s[i + 1] && t[j] == s[j + 1];
        }
      }
      NoDupCard(t);
      assert (set x | x in s) == {s[0]} + (set x | x in t) by {
        assert s == [s[0]] + t;
      }
      assert s[0] !in t by {
        forall j | 0 <= j < |t| ensures t[j] != s[0] {
          assert t[j] == s[j + 1];
        }
      }
    }
  }
}
