/**
 * The pairs two nested loops visit: for i from 0 to n - 1, for j from
 * i + 1 to n - 1, keep (i, j) when a test holds, and append an output for
 * each kept pair. The particle frame and its line buffer are built this way;
 * the test and the output are kept abstract here so that these facts about
 * order, membership and concatenation do not depend on the geometry.
 */
module Pairs {
  import opened Sequences

  datatype Pair = Pair(i: nat, j: nat)

  /** Lexicographic order on pairs. */
  predicate LexLess(a: Pair, b: Pair) {
    a.i < b.i || (a.i == b.i && a.j < b.j)
  }

  predicate StrictlyOrdered(ps: seq<Pair>) {
    forall a, b :: 0 <= a < b < |ps| ==> LexLess(ps[a], ps[b])
  }

  /** The pair passes the test. */
  predicate Kept(keep: (nat, nat) -> bool, pr: Pair) {
    keep(pr.i, pr.j)
  }

  /** What the inner loop keeps at column j of row i: the pair (i, j) when it passes the test. */
  function Column(keep: (nat, nat) -> bool, i: nat, j: nat): seq<Pair> {
    if keep(i, j) then [Pair(i, j)] else []
  }

  /** The kept pairs (i, k), i < k < j, in increasing k: the inner loop run up to j. */
  function RowPairs(keep: (nat, nat) -> bool, i: nat, j: nat): seq<Pair>
    requires i < j
    decreases j
  {
    if j == i + 1 then [] else RowPairs(keep, i, j - 1) + Column(keep, i, j - 1)
  }

  /** The kept pairs whose first element is below i: the outer loop run up to i. */
  function PairsBefore(keep: (nat, nat) -> bool, n: nat, i: nat): seq<Pair>
    requires i <= n
    decreases i
  {
    if i == 0 then [] else PairsBefore(keep, n, i - 1) + RowPairs(keep, i - 1, n)
  }

  /** All kept pairs (i, j), i < j < n, in the order the loops visit them. */
  function AllPairs(keep: (nat, nat) -> bool, n: nat): seq<Pair> {
    PairsBefore(keep, n, n)
  }

  /** Two ordered lists, every element of the first below every element of the second, join into an ordered list. */
  lemma OrderedAppend(xs: seq<Pair>, ys: seq<Pair>)
    requires StrictlyOrdered(xs) && StrictlyOrdered(ys)
    requires forall x, y :: x in xs && y in ys ==> LexLess(x, y)
    ensures StrictlyOrdered(xs + ys)
  {
    var all := xs + ys;
    forall a, b | 0 <= a < b < |all| ensures LexLess(all[a], all[b]) {
      if b < |xs| {
        assert all[a] == xs[a] && all[b] == xs[b];
      } else if a >= |xs| {
        assert all[a] == ys[a - |xs|] && all[b] == ys[b - |xs|];
      } else {
        assert all[a] == xs[a] && all[b] == ys[b - |xs|];
      }
    }
  }

  /** Row i up to j holds the pair `pr` exactly when it is (i, k), i < k < j, and kept. */
  lemma {:induction false} RowPairsMember(keep: (nat, nat) -> bool, i: nat, j: nat, pr: Pair)
    requires i < j
    ensures pr in RowPairs(keep, i, j) <==> pr.i == i && i < pr.j < j && Kept(keep, pr)
    decreases j
  {
    if j > i + 1 {
      var k := j - 1;
      RowPairsMember(keep, i, k, pr);
      InAppend(RowPairs(keep, i, k), Column(keep, i, k), pr);
    }
  }

  /** Row i comes in increasing order of the second element. */
  lemma {:induction false} RowPairsOrdered(keep: (nat, nat) -> bool, i: nat, j: nat)
    requires i < j
    ensures StrictlyOrdered(RowPairs(keep, i, j))
    decreases j
  {
    if j > i + 1 {
      var k := j - 1;
      var row := RowPairs(keep, i, k);
      var col := Column(keep, i, k);
      RowPairsOrdered(keep, i, k);
      forall x, y | x in row && y in col ensures LexLess(x, y) {
        RowPairsMember(keep, i, k, x);
      }
      OrderedAppend(row, col);
    }
  }

  /** Before row i the loops have collected `pr` exactly when its first element is below i, it is a pair below n, and it is kept. */
  lemma {:induction false} PairsBeforeMember(keep: (nat, nat) -> bool, n: nat, i: nat, pr: Pair)
    requires i <= n
    ensures pr in PairsBefore(keep, n, i) <==> pr.i < i && pr.i < pr.j < n && Kept(keep, pr)
    decreases i
  {
    if i != 0 {
      var k := i - 1;
      var before := PairsBefore(keep, n, k);
      var row := RowPairs(keep, k, n);
      assert PairsBefore(keep, n, i) == before + row;
      PairsBeforeMember(keep, n, k, pr);
      RowPairsMember(keep, k, n, pr);
      InAppend(before, row, pr);
    }
  }

  /** Every pair collected before row i precedes every pair of row i. */
  lemma RowFollows(keep: (nat, nat) -> bool, n: nat, i: nat)
    requires i < n
    ensures forall x, y :: x in PairsBefore(keep, n, i) && y in RowPairs(keep, i, n) ==> LexLess(x, y)
  {
    forall x, y | x in PairsBefore(keep, n, i) && y in RowPairs(keep, i, n) ensures LexLess(x, y) {
      PairsBeforeMember(keep, n, i, x);
      RowPairsMember(keep, i, n, y);
    }
  }

  /** The pairs collected before row i come in lexicographic order. */
  lemma {:induction false} PairsBeforeOrdered(keep: (nat, nat) -> bool, n: nat, i: nat)
    requires i <= n
    ensures StrictlyOrdered(PairsBefore(keep, n, i))
    decreases i
  {
    if i != 0 {
      var k := i - 1;
      PairsBeforeOrdered(keep, n, k);
      RowPairsOrdered(keep, k, n);
      RowFollows(keep, n, k);
      OrderedAppend(PairsBefore(keep, n, k), RowPairs(keep, k, n));
    }
  }

  /** The loops keep exactly the pairs (i, j), i < j < n, that pass the test. */
  lemma AllPairsExact(keep: (nat, nat) -> bool, n: nat, i: nat, j: nat)
    ensures Pair(i, j) in AllPairs(keep, n) <==> i < j < n && keep(i, j)
  {
    PairsBeforeMember(keep, n, n, Pair(i, j));
  }

  /** The kept pairs come in lexicographic order, so none appears twice. */
  lemma AllPairsOrdered(keep: (nat, nat) -> bool, n: nat)
    ensures StrictlyOrdered(AllPairs(keep, n))
    ensures forall a, b :: 0 <= a < b < |AllPairs(keep, n)| ==> AllPairs(keep, n)[a] != AllPairs(keep, n)[b]
  {
    PairsBeforeOrdered(keep, n, n);
  }

  /** With three elements the loops visit (0, 1), (0, 2) and (1, 2), in that order. */
  lemma AllPairsOfThree(keep: (nat, nat) -> bool)
    ensures AllPairs(keep, 3) == Column(keep, 0, 1) + Column(keep, 0, 2) + Column(keep, 1, 2)
  {
    assert RowPairs(keep, 0, 3) == Column(keep, 0, 1) + Column(keep, 0, 2);
    assert RowPairs(keep, 1, 3) == Column(keep, 1, 2);
    assert RowPairs(keep, 2, 3) == [];
    assert PairsBefore(keep, 3, 1) == RowPairs(keep, 0, 3);
  }

  /** The output of a list of pairs: the output of each pair, one after another. */
  function Flatten<T>(f: Pair -> seq<T>, ps: seq<Pair>): seq<T> {
    if |ps| == 0 then [] else Flatten(f, ps[..|ps| - 1]) + f(ps[|ps| - 1])
  }

  /** What column j of row i outputs: the pair's output when the pair is kept. */
  function ColumnOut<T>(keep: (nat, nat) -> bool, f: Pair -> seq<T>, i: nat, j: nat): seq<T> {
    if keep(i, j) then f(Pair(i, j)) else []
  }

  /** The output of row i up to column j, appended column by column as the inner loop does. */
  function RowOut<T>(keep: (nat, nat) -> bool, f: Pair -> seq<T>, i: nat, j: nat): seq<T>
    requires i < j
    decreases j
  {
    if j == i + 1 then [] else RowOut(keep, f, i, j - 1) + ColumnOut(keep, f, i, j - 1)
  }

  /** One more pass of the inner loop appends column j's output to the row's. */
  lemma RowOutStep<T>(keep: (nat, nat) -> bool, f: Pair -> seq<T>, i: nat, j: nat)
    requires i < j
    ensures RowOut(keep, f, i, j + 1) == RowOut(keep, f, i, j) + ColumnOut(keep, f, i, j)
  {
  }

  /** The output of the rows before i, appended row by row as the outer loop does. */
  function FrameOut<T>(keep: (nat, nat) -> bool, f: Pair -> seq<T>, n: nat, i: nat): seq<T>
    requires i <= n
    decreases i
  {
    if i == 0 then [] else FrameOut(keep, f, n, i - 1) + RowOut(keep, f, i - 1, n)
  }

  /** The output of two lists of pairs, one after the other, is their two outputs joined. */
  lemma {:induction false} FlattenAppend<T>(f: Pair -> seq<T>, xs: seq<Pair>, ys: seq<Pair>)
    ensures Flatten(f, xs + ys) == Flatten(f, xs) + Flatten(f, ys)
    decreases |ys|
  {
    if |ys| == 0 {
      assert xs + ys == xs;
      AppendEmpty(Flatten(f, xs));
    } else {
      var init := ys[..|ys| - 1];
      var last := f(ys[|ys| - 1]);
      FlattenAppend(f, xs, init);
      DropLastOfAppend(xs, ys);
      assert Flatten(f, xs + ys) == Flatten(f, xs + init) + last;
      AppendAssoc(Flatten(f, xs), Flatten(f, init), last);
    }
  }

  /** The output of a column's kept pairs is the column's output. */
  lemma FlattenColumn<T>(keep: (nat, nat) -> bool, f: Pair -> seq<T>, i: nat, j: nat)
    ensures Flatten(f, Column(keep, i, j)) == ColumnOut(keep, f, i, j)
  {
    var col := Column(keep, i, j);
    if keep(i, j) {
      assert col[..0] == [];
    }
  }

  /** Appending column outputs gives the output of the row's kept pairs. */
  lemma {:induction false} RowOutIsFlatten<T>(keep: (nat, nat) -> bool, f: Pair -> seq<T>, i: nat, j: nat)
    requires i < j
    ensures RowOut(keep, f, i, j) == Flatten(f, RowPairs(keep, i, j))
    decreases j
  {
    if j > i + 1 {
      var k := j - 1;
      RowOutIsFlatten(keep, f, i, k);
      FlattenAppend(f, RowPairs(keep, i, k), Column(keep, i, k));
      FlattenColumn(keep, f, i, k);
    }
  }

  /** Appending row outputs gives the output of all pairs collected before row i. */
  lemma {:induction false} FrameOutIsFlatten<T>(keep: (nat, nat) -> bool, f: Pair -> seq<T>, n: nat, i: nat)
    requires i <= n
    ensures FrameOut(keep, f, n, i) == Flatten(f, PairsBefore(keep, n, i))
    decreases i
  {
    if i != 0 {
      var k := i - 1;
      FrameOutIsFlatten(keep, f, n, k);
      RowOutIsFlatten(keep, f, k, n);
      FlattenAppend(f, PairsBefore(keep, n, k), RowPairs(keep, k, n));
    }
  }
}
