/**
 * The market a course allocation runs on: the students' utilities and
 * budgets, the course capacities and the limit on bundle size; the
 * integer programs the allocator consults, as oracles; `max_utilities`;
 * and `Course_Bundle`, a price vector with the placement it induces.
 */
module CourseMarket {
  import opened Demand

  /** The allocator's `Epsilon`. */
  const Epsilon: real := 0.01

  /**
   * The data every `Course_Bundle` of one run shares: `utilities[s][c]` is
   * student s's value for course c, `budgets[s]` is student s's budget,
   * `capacity[c]` the number of seats of course c, and `numOfCourses` the
   * most courses one student may take.
   */
  datatype Market = Market(utilities: seq<seq<real>>, budgets: seq<real>, capacity: seq<nat>, numOfCourses: nat)
  {
    /** The number of courses: the length of every utility row. */
    function Courses(): nat
      requires |utilities| > 0
    {
      |utilities[0]|
    }

    /**
     * At least one student (numpy cannot take the column sums of an empty
     * placement), one budget per student, rectangular utilities, and a
     * capacity for every course.
     */
    predicate Valid() {
      && |utilities| > 0
      && |budgets| == |utilities|
      && (forall s | 0 <= s < |utilities| :: |utilities[s]| == |utilities[0]|)
      && |utilities[0]| <= |capacity|
    }
  }

  /**
   * The integer programs the allocator hands to its solver:
   * `maxUtility(utility, budget, prices, k)` is the bundle of `max_utility`,
   * the most valuable affordable bundle of at most k courses;
   * `bestWithout(utility, budget, prices, course, k)` is O1, the value of the
   * best affordable bundle without `course`;
   * `cheapestWith(utility, prices, minValue, course, k)` is O2, the price of
   * the cheapest bundle with `course` worth at least `minValue`.
   */
  datatype Solver = Solver(
    maxUtility: (seq<real>, real, seq<real>, nat) -> seq<int>,
    bestWithout: (seq<real>, real, seq<real>, nat, nat) -> real,
    cheapestWith: (seq<real>, seq<real>, real, nat, nat) -> real)
  {
    /** `max_utility` answers with a 0/1 vector holding one entry per course. */
    ghost predicate Valid() {
      forall u, b, p, k :: |maxUtility(u, b, p, k)| == |u| && Binary(maxUtility(u, b, p, k))
    }

    /** One answer of a valid solver's `max_utility`. */
    lemma Answer(u: seq<real>, b: real, p: seq<real>, k: nat)
      requires Valid()
      ensures |maxUtility(u, b, p, k)| == |u| && Binary(maxUtility(u, b, p, k))
    {
    }
  }

  /** The placement the students choose at `prices`: row s is student s's bundle. */
  function ChosenPlacement(market: Market, solver: Solver, prices: seq<real>): (m: Placement)
    requires market.Valid() && solver.Valid()
    ensures IsPlacementOf(market, m)
  {
    var m := seq(|market.utilities|, s requires 0 <= s < |market.utilities| =>
      solver.maxUtility(market.utilities[s], market.budgets[s], prices, market.numOfCourses));
    assert forall s | 0 <= s < |m| :: |m[s]| == market.Courses() && Binary(m[s]) by {
      forall s | 0 <= s < |m|
        ensures |m[s]| == market.Courses() && Binary(m[s])
      {
        solver.Answer(market.utilities[s], market.budgets[s], prices, market.numOfCourses);
      }
    }
    m
  }

  /** `placement` gives each of `market`'s students a 0/1 bundle over its courses. */
  predicate IsPlacementOf(market: Market, placement: Placement) {
    && market.Valid()
    && |placement| == |market.utilities|
    && Shaped(placement, market.Courses())
    && (forall s | 0 <= s < |placement| :: Binary(placement[s]))
  }

  /** `max_utilities`: asks the solver for every student's bundle, in student order. */
  method MaxUtilities(market: Market, solver: Solver, prices: seq<real>) returns (placements: Placement)
    requires market.Valid() && solver.Valid() && |prices| == market.Courses()
    ensures |placements| == |market.utilities|
    ensures forall s | 0 <= s < |placements| ::
      placements[s] == solver.maxUtility(market.utilities[s], market.budgets[s], prices, market.numOfCourses)
    ensures placements == ChosenPlacement(market, solver, prices)
  {
    placements := [];
    var student := 0;
    while student < |market.utilities|
      invariant 0 <= student <= |market.utilities|
      invariant |placements| == student
      invariant forall s | 0 <= s < student ::
        placements[s] == solver.maxUtility(market.utilities[s], market.budgets[s], prices, market.numOfCourses)
    {
      var placement := solver.maxUtility(market.utilities[student], market.budgets[student], prices, market.numOfCourses);
      placements := placements + [placement];
      student := student + 1;
    }
  }

  /** `Course_Bundle`: a price vector and the placement computed for it. */
  datatype CourseBundle = CourseBundle(market: Market, prices: seq<real>, placement: Placement)
  {
    /** One price per course and a 0/1 placement of the market's students. */
    predicate Valid() {
      && IsPlacementOf(market, placement)
      && |prices| == market.Courses()
    }

    /** The placement is the students' choice at this bundle's prices. */
    predicate Evaluated(solver: Solver)
      requires market.Valid() && solver.Valid()
    {
      placement == ChosenPlacement(market, solver, prices)
    }

    /** The number of students holding each course. */
    function Demand(): (sums: seq<int>)
      requires Valid()
      ensures |sums| == market.Courses()
    {
      ColumnSums(placement, market.Courses())
    }

    /** `Course_Bundle.score`, squared. */
    function Score(): nat
      requires Valid()
    {
      SquaredExcess(Demand(), market.capacity)
    }

    /** `Course_Bundle.__lt__`: the queue orders bundles by score alone. */
    predicate Less(other: CourseBundle)
      requires Valid() && other.Valid()
      ensures Less(other) ==> !WithinCapacity(other.Demand(), other.market.capacity)
    {
      ScoreZeroIff(other.Demand(), other.market.capacity);
      Score() < other.Score()
    }

    /** `Course_Bundle.__eq__`: bundles are equal when their price vectors are. */
    predicate Equals(other: CourseBundle)
      ensures Equals(other) <==>
        |prices| == |other.prices| && forall i | 0 <= i < |prices| :: prices[i] == other.prices[i]
    {
      prices == other.prices
    }
  }

  /** `Course_Bundle(...)`: builds a bundle at `prices` and computes its placement. */
  method NewCourseBundle(market: Market, solver: Solver, prices: seq<real>) returns (b: CourseBundle)
    requires market.Valid() && solver.Valid() && |prices| == market.Courses()
    ensures b.Valid() && b.market == market && b.prices == prices && b.Evaluated(solver)
  {
    var placement := MaxUtilities(market, solver, prices);
    b := CourseBundle(market, prices, placement);
  }

  /** `Course_Bundle.score()`, computed by the allocator's `score`. */
  method ScoreOf(b: CourseBundle) returns (s: nat)
    requires b.Valid()
    ensures s == b.Score()
    ensures s == 0 <==> WithinCapacity(b.Demand(), b.market.capacity)
  {
    s := Score(b.placement, b.market.capacity);
    ScoreZeroIff(b.Demand(), b.market.capacity);
  }

  /**
   * `__eq__` and `__lt__` agree: two bundles of one market that are equal
   * (same prices) have the same placement, so neither is less than the other;
   * and `__lt__` is a strict order.
   */
  lemma EqualBundlesAreUnordered(a: CourseBundle, b: CourseBundle, c: CourseBundle, solver: Solver)
    requires a.Valid() && b.Valid() && c.Valid() && solver.Valid()
    requires a.Evaluated(solver) && b.Evaluated(solver) && a.market == b.market
    ensures a.Equals(b) ==> !a.Less(b) && !b.Less(a)
    ensures !a.Less(a)
    ensures a.Less(b) && b.Less(c) ==> a.Less(c)
  {
  }
}
