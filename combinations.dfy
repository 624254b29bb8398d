/** `getCombinations`: every way of choosing `size` elements of a list,
    keeping their order, by the include-first / exclude-first recursion. */
module Choices {
  import opened Seqs

  function PrependAll<T>(x: T, css: seq<seq<T>>): seq<seq<T>> {
    seq(|css|, i requires 0 <= i < |css| => [x] + css[i])
  }

  /** The choices that take `cells[0]` come first, then those that skip it;
      choosing 0 gives the one empty choice, and choosing more elements than
      there are gives none. */
  function Combinations<T>(cells: seq<T>, size: nat): seq<seq<T>>
    decreases |cells|
  {
    if size == 0 then [[]]
    else if |cells| < size then []
    else PrependAll(cells[0], Combinations(cells[1..], size - 1)) + Combinations(cells[1..], size)
  }

  /** The binomial coefficient, by Pascal's rule. */
  function Binomial(n: nat, k: nat): nat {
    if k == 0 then 1 else if n == 0 then 0 else Binomial(n - 1, k - 1) + Binomial(n - 1, k)
  }

  lemma {:induction false} BinomialZero(n: nat, k: nat)
    requires n < k
    ensures Binomial(n, k) == 0
  {
    if n > 0 {
      BinomialZero(n - 1, k - 1);
      BinomialZero(n - 1, k);
    }
  }

  /** There are C(n, k) of them. */
  lemma {:induction false} CombinationsCount<T>(cells: seq<T>, size: nat)
    ensures |Combinations(cells, size)| == Binomial(|cells|, size)
    decreases |cells|
  {
    if size > 0 {
      if |cells| < size {
        BinomialZero(|cells|, size);
      } else {
        CombinationsCount(cells[1..], size - 1);
        CombinationsCount(cells[1..], size);
      }
    }
  }

  /** Each of them has `size` elements and is an order-preserving sub-list
      of `cells`. */
  lemma {:induction false} CombinationsSound<T>(cells: seq<T>, size: nat)
    ensures forall c :: c in Combinations(cells, size) ==> |c| == size && IsSubseq(c, cells)
    decreases |cells|
  {
    if size > 0 && |cells| >= size {
      var t := cells[1..];
      CombinationsSound(t, size - 1);
      CombinationsSound(t, size);
      var with, without := Combinations(t, size - 1), Combinations(t, size);
      forall c | c in Combinations(cells, size) ensures |c| == size && IsSubseq(c, cells) {
        if c in PrependAll(cells[0], with) {
          var i :| 0 <= i < |with| && c == [cells[0]] + with[i];
          assert c[1..] == with[i];
        } else {
          assert c in without;
        }
      }
    }
  }

  /** And every order-preserving sub-list of `size` elements is among them. */
  lemma {:induction false} CombinationsComplete<T>(cells: seq<T>, c: seq<T>)
    requires IsSubseq(c, cells)
    ensures c in Combinations(cells, |c|)
    decreases |cells|
  {
    if c != [] {
      SubseqFacts(c, cells);
      var t := cells[1..];
      if c[0] == cells[0] && IsSubseq(c[1..], t) {
        CombinationsComplete(t, c[1..]);
        var with := Combinations(t, |c| - 1);
        var i :| 0 <= i < |with| && with[i] == c[1..];
        assert PrependAll(cells[0], with)[i] == c;
      } else {
        CombinationsComplete(t, c);
      }
    }
  }

  /** Those holding `cells[0]` come first: the first C(n-1, k-1) start with
      it, and, when `cells` has no repeats, none of the rest contains it. */
  lemma CombinationsOrder<T>(cells: seq<T>, size: nat)
    requires 0 < size <= |cells|
    ensures var r := Combinations(cells, size);
      forall i :: 0 <= i < |r| ==>
        (i < Binomial(|cells| - 1, size - 1) ==> r[i] != [] && r[i][0] == cells[0]) &&
        (i >= Binomial(|cells| - 1, size - 1) && NoDup(cells) ==> cells[0] !in r[i])
  {
    CombinationsCount(cells[1..], size - 1);
    forall i | 0 <= i < |Combinations(cells, size)|
      ensures i < Binomial(|cells| - 1, size - 1) ==>
        Combinations(cells, size)[i] != [] && Combinations(cells, size)[i][0] == cells[0]
      ensures i >= Binomial(|cells| - 1, size - 1) && NoDup(cells) ==> cells[0] !in Combinations(cells, size)[i]
    {
      CombinationsOrderAt(cells, size, i);
    }
  }

  /** One entry of `CombinationsOrder`: entry `i` either comes from the
      combinations that take `cells[0]` or from those that skip it. */
  lemma CombinationsOrderAt<T>(cells: seq<T>, size: nat, i: nat)
    requires 0 < size <= |cells| && i < |Combinations(cells, size)|
    ensures var with := PrependAll(cells[0], Combinations(cells[1..], size - 1));
      && (i < |with| ==> Combinations(cells, size)[i] != [] && Combinations(cells, size)[i][0] == cells[0])
      && (i >= |with| && NoDup(cells) ==> cells[0] !in Combinations(cells, size)[i])
  {
    var t := cells[1..];
    var r := Combinations(cells, size);
    var with, without := PrependAll(cells[0], Combinations(t, size - 1)), Combinations(t, size);
    assert r == with + without;
    if i < |with| {
      assert r[i] == with[i];
    } else if NoDup(cells) {
      assert r[i] == without[i - |with|];
      CombinationsSound(t, size);
      SubseqFacts(r[i], t);
      assert cells[0] !in t;
    }
  }

  lemma PrependAllNoDup<T>(x: T, css: seq<seq<T>>)
    requires NoDup(css)
    ensures NoDup(PrependAll(x, css))
  {
    var r := PrependAll(x, css);
    forall i, j | 0 <= i < j < |r| ensures r[i] != r[j] {
      assert r[i][1..] == css[i] && r[j][1..] == css[j];
    }
  }

  lemma NoDupConcat<T>(a: seq<T>, b: seq<T>)
    requires NoDup(a) && NoDup(b) && forall x :: x in a ==> x !in b
    ensures NoDup(a + b)
  {
    forall i, j | 0 <= i < j < |a + b| ensures (a + b)[i] != (a + b)[j] {
      if i < |a| && j >= |a| {
        assert (a + b)[i] in a && (a + b)[j] == b[j - |a|];
      } else if i >= |a| {
        assert (a + b)[i] == b[i - |a|] && (a + b)[j] == b[j - |a|];
      }
    }
  }

  /** When `cells` has no repeats, no choice appears twice. */
  lemma {:induction false} CombinationsDistinct<T>(cells: seq<T>, size: nat)
    requires NoDup(cells)
    ensures NoDup(Combinations(cells, size))
    decreases |cells|
  {
    if size > 0 && |cells| >= size {
      var t := cells[1..];
      assert NoDup(t);
      CombinationsDistinct(t, size - 1);
      CombinationsDistinct(t, size);
      CombinationsSound(t, size);
      var with, without := PrependAll(cells[0], Combinations(t, size - 1)), Combinations(t, size);
      PrependAllNoDup(cells[0], Combinations(t, size - 1));
      forall c | c in without ensures cells[0] !in c {
        SubseqFacts(c, t);
      }
      forall c | c in with ensures c !in without {
        assert c[0] == cells[0];
      }
      NoDupConcat(with, without);
    }
  }
}
