/**
 * Demand for courses and the excess-demand score of a placement
 * (the `score` function of the course allocator).
 *
 * A placement has one row per student and one 0/1 column per course.
 * The source returns the square root of the sum of squared excesses;
 * the model keeps the integer under the root, since every comparison
 * the allocator makes on scores is preserved by the (monotone) root.
 */
module Demand {

  type Placement = seq<seq<int>>

  /** Every row of `m` has exactly `width` columns. */
  predicate Shaped(m: Placement, width: nat) {
    forall r | 0 <= r < |m| :: |m[r]| == width
  }

  /** Every entry of a bundle vector is 0 or 1. */
  predicate Binary(row: seq<int>) {
    forall c | 0 <= c < |row| :: row[c] == 0 || row[c] == 1
  }

  /** The number of students among the first `n` rows that hold course `c`. */
  function ColumnSum(m: Placement, c: nat, n: nat): int
    requires n <= |m|
    requires forall r | 0 <= r < n :: c < |m[r]|
  {
    if n == 0 then 0 else ColumnSum(m, c, n - 1) + m[n - 1][c]
  }

  /** Column sums of a shaped placement (numpy's `np.sum(placement, axis=0)`). */
  function ColumnSums(m: Placement, width: nat): (sums: seq<int>)
    requires Shaped(m, width)
    ensures |sums| == width
    ensures forall c | 0 <= c < width :: sums[c] == ColumnSum(m, c, |m|)
  {
    seq(width, c requires 0 <= c < width => ColumnSum(m, c, |m|))
  }

  /** How far `demand` exceeds `cap`; under-filled courses have no excess. */
  function Excess(demand: int, cap: int): (e: nat)
    ensures e > 0 <==> cap < demand
  {
    if cap < demand then demand - cap else 0
  }

  function Square(x: int): (y: nat)
    ensures x != 0 ==> y > 0
  {
    if x < 0 then (-x) * (-x) else x * x
  }

  /**
   * The square of the source's score: the sum, over the courses whose
   * demand exceeds their capacity, of the squared excess.
   */
  function SquaredExcess(sums: seq<int>, capacity: seq<int>): nat
    requires |sums| <= |capacity|
  {
    if |sums| == 0 then 0
    else
      var c := |sums| - 1;
      SquaredExcess(sums[..c], capacity)
        + Square(Excess(sums[c], capacity[c]))
  }

  /** No course has more demand than capacity. */
  predicate WithinCapacity(sums: seq<int>, capacity: seq<int>)
    requires |sums| <= |capacity|
  {
    forall c | 0 <= c < |sums| :: sums[c] <= capacity[c]
  }

  /** The score is 0 exactly when no course is oversubscribed. */
  lemma {:induction false} ScoreZeroIff(sums: seq<int>, capacity: seq<int>)
    requires |sums| <= |capacity|
    ensures SquaredExcess(sums, capacity) == 0 <==> WithinCapacity(sums, capacity)
  {
    if |sums| > 0 {
      var c := |sums| - 1;
      ScoreZeroIff(sums[..c], capacity);
      if WithinCapacity(sums, capacity) {
        assert WithinCapacity(sums[..c], capacity);
      }
      if SquaredExcess(sums, capacity) == 0 {
        assert sums[c] <= capacity[c];
      }
    }
  }

  /** Every oversubscribed course contributes its squared excess to the score. */
  lemma {:induction false} ScoreBoundsEachExcess(sums: seq<int>, capacity: seq<int>, c: nat)
    requires |sums| <= |capacity| && c < |sums|
    ensures Square(Excess(sums[c], capacity[c])) <= SquaredExcess(sums, capacity)
  {
    var last := |sums| - 1;
    if c < last {
      ScoreBoundsEachExcess(sums[..last], capacity, c);
    }
  }

  /**
   * Only oversubscribed courses matter: two demand vectors that agree on
   * every course where either is oversubscribed have the same score.
   */
  lemma {:induction false} UnderfilledIrrelevant(sums: seq<int>, sums': seq<int>, capacity: seq<int>)
    requires |sums| == |sums'| <= |capacity|
    requires forall c | 0 <= c < |sums| :: sums[c] == sums'[c] || (sums[c] <= capacity[c] && sums'[c] <= capacity[c])
    ensures SquaredExcess(sums, capacity) == SquaredExcess(sums', capacity)
  {
    if |sums| > 0 {
      var c := |sums| - 1;
      UnderfilledIrrelevant(sums[..c], sums'[..c], capacity);
    }
  }

  /** Raising the demand of any course never lowers the score. */
  lemma {:induction false} ScoreMonotone(sums: seq<int>, sums': seq<int>, capacity: seq<int>)
    requires |sums| == |sums'| <= |capacity|
    requires forall c | 0 <= c < |sums| :: sums[c] <= sums'[c]
    ensures SquaredExcess(sums, capacity) <= SquaredExcess(sums', capacity)
  {
    if |sums| > 0 {
      var c := |sums| - 1;
      ScoreMonotone(sums[..c], sums'[..c], capacity);
      if capacity[c] < sums[c] {
        var e, e' := sums[c] - capacity[c], sums'[c] - capacity[c];
        assert 0 < e <= e';
        assert e * e <= e' * e' by {
          assert e * e <= e * e';
          assert e * e' <= e' * e';
        }
      }
    }
  }

  /**
   * Scores are compared through their square roots in the source; on
   * non-negative roots every comparison agrees with the comparison of
   * their squares, and `root > bound` agrees with `AboveBound`.
   */
  lemma RootComparisons(r1: real, r2: real, bound: real)
    requires 0.0 <= r1 && 0.0 <= r2
    ensures r1 < r2 <==> r1 * r1 < r2 * r2
    ensures r1 > bound <==> AboveBound(r1 * r1, bound)
  {
    SquareStrictlyMonotone(r1, r2);
    SquareStrictlyMonotone(r2, r1);
    if 0.0 <= bound {
      SquareStrictlyMonotone(bound, r1);
      SquareStrictlyMonotone(r1, bound);
    }
  }

  lemma SquareStrictlyMonotone(x: real, y: real)
    requires 0.0 <= x && 0.0 <= y
    ensures x < y ==> x * x < y * y
  {
    if x < y {
      var d := y - x;
      assert y * y == x * x + 2.0 * x * d + d * d;
      assert d * d > 0.0;
      assert x * d >= 0.0;
    }
  }

  /** `sqrt(squared) > bound`, stated on the squared score. */
  predicate AboveBound(squared: real, bound: real) {
    bound < 0.0 || squared > bound * bound
  }

  /**
   * The allocator's `score(placement, capacity)`: accumulates the squared
   * excess of each column of the placement's demand.
   */
  method Score(placement: Placement, capacity: seq<int>) returns (ans: nat)
    requires |placement| > 0
    requires Shaped(placement, |placement[0]|)
    requires |placement[0]| <= |capacity|
    ensures ans == SquaredExcess(ColumnSums(placement, |placement[0]|), capacity)
    ensures ans == 0 <==> WithinCapacity(ColumnSums(placement, |placement[0]|), capacity)
  {
    var sums := ColumnSums(placement, |placement[0]|);
    ans := 0;
    var index := 0;
    while index < |sums|
      invariant 0 <= index <= |sums|
      invariant ans == SquaredExcess(sums[..index], capacity)
    {
      assert sums[..index + 1][..index] == sums[..index];
      if capacity[index] < sums[index] {
        ans := ans + Square(sums[index] - capacity[index]);
      }
      index := index + 1;
    }
    assert sums[..index] == sums;
    ScoreZeroIff(sums, capacity);
  }

  /** Doctest 2: three students holding courses 1 and 2, capacity 1 each. */
  lemma ScoreExample()
    ensures SquaredExcess([0, 3, 3, 0], [1, 1, 1, 1]) == 8
    ensures ColumnSums([[0, 1, 1, 0], [0, 1, 1, 0], [0, 1, 1, 0]], 4) == [0, 3, 3, 0]
  {
    var m: Placement := [[0, 1, 1, 0], [0, 1, 1, 0], [0, 1, 1, 0]];
    assert ColumnSum(m, 1, 3) == 3 && ColumnSum(m, 2, 3) == 3;
    assert ColumnSum(m, 0, 3) == 0 && ColumnSum(m, 3, 3) == 0;
    var s := [0, 3, 3, 0];
    assert s[..3][..2] == [0, 3] && s[..3] == [0, 3, 3];
    assert [0, 3][..1] == [0];
    assert [0][..0] == [];
  }
}
