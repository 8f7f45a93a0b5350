/**
 * `neighbors`: the candidate price vectors the tabu search explores from
 * one price vector. The first candidate is the gradient of excess demand;
 * then, for each oversubscribed course in increasing order, a copy of the
 * prices in which only that course's price is raised.
 */
module Neighbors {
  import opened Wrappers
  import opened Demand
  import opened CourseMarket

  /** Entry `c` of the gradient neighbour. */
  function GradientEntry(price: real, size: int, cap: int): int {
    if price > 0.0 then size - cap
    else Excess(size, cap)
  }

  /**
   * The gradient of excess demand. Its positive entries are exactly the
   * oversubscribed courses; at a priced course it is demand minus capacity,
   * and at a free course it is the excess demand, never negative.
   */
  function Gradient(prices: seq<real>, sums: seq<int>, capacity: seq<int>): (g: seq<int>)
    requires |prices| == |sums| <= |capacity|
    ensures |g| == |sums|
    ensures forall c | 0 <= c < |g| :: g[c] > 0 <==> capacity[c] < sums[c]
    ensures forall c | 0 <= c < |g| && prices[c] > 0.0 :: g[c] == sums[c] - capacity[c]
    ensures forall c | 0 <= c < |g| && prices[c] <= 0.0 :: g[c] == Excess(sums[c], capacity[c]) && g[c] >= 0
  {
    seq(|sums|, c requires 0 <= c < |sums| => GradientEntry(prices[c], sums[c], capacity[c]))
  }

  /** The gradient read as a price vector, as the source puts it in the queue. */
  function AsPrices(g: seq<int>): (p: seq<real>)
    ensures |p| == |g| && forall c | 0 <= c < |g| :: p[c] == g[c] as real
  {
    seq(|g|, c requires 0 <= c < |g| => g[c] as real)
  }

  /** Student `s` holds course `c` in `placement`. */
  predicate Holds(placement: Placement, s: nat, c: nat)
    requires s < |placement| && c < |placement[s]|
  {
    placement[s][c] == 1
  }

  /** Course `c` has more holders in `placement` than it has seats. */
  predicate Overfull(market: Market, placement: Placement, c: nat)
    requires IsPlacementOf(market, placement) && c < market.Courses()
  {
    market.capacity[c] < ColumnSum(placement, c, |placement|)
  }

  /**
   * How much the price of course `c` may rise before student `s` would
   * rather drop it: budget − O2 + Epsilon, where O1 is the best value the
   * student gets without `c` and O2 the price of the cheapest bundle with
   * `c` worth at least O1 + Epsilon.
   */
  function Rise(market: Market, solver: Solver, prices: seq<real>, s: nat, c: nat): real
    requires market.Valid() && s < |market.utilities|
  {
    var u := market.utilities[s];
    var o1 := solver.bestWithout(u, market.budgets[s], prices, c, market.numOfCourses);
    var o2 := solver.cheapestWith(u, prices, o1 + Epsilon, c, market.numOfCourses);
    market.budgets[s] - o2 + Epsilon
  }

  /** `pi` after scanning the first `n` students; `None` while it is still `math.inf`. */
  function MinRise(market: Market, solver: Solver, prices: seq<real>, placement: Placement, c: nat, n: nat): Option<real>
    requires IsPlacementOf(market, placement) && c < market.Courses() && n <= |placement|
  {
    if n == 0 then None
    else
      var pi := MinRise(market, solver, prices, placement, c, n - 1);
      var rise := Rise(market, solver, prices, n - 1, c);
      if Holds(placement, n - 1, c) && (pi.None? || rise < pi.value) then Some(rise) else pi
  }

  /**
   * `pi` stays infinite exactly while no scanned student holds the course;
   * otherwise it is the smallest rise over the holders, attained by one of them.
   */
  lemma {:induction false} MinRiseIsMinimum(market: Market, solver: Solver, prices: seq<real>, placement: Placement, c: nat, n: nat)
    requires IsPlacementOf(market, placement) && c < market.Courses() && n <= |placement|
    ensures var pi := MinRise(market, solver, prices, placement, c, n);
      && (pi.Some? <==> exists s | 0 <= s < n :: Holds(placement, s, c))
      && (pi.Some? ==> exists s | 0 <= s < n && Holds(placement, s, c) :: pi.value == Rise(market, solver, prices, s, c))
      && (pi.Some? ==> forall s | 0 <= s < n && Holds(placement, s, c) :: pi.value <= Rise(market, solver, prices, s, c))
  {
    if n > 0 {
      MinRiseIsMinimum(market, solver, prices, placement, c, n - 1);
    }
  }

  /** A column of a 0/1 placement with a positive sum has a holder. */
  lemma {:induction false} HolderExists(placement: Placement, c: nat, n: nat)
    requires n <= |placement|
    requires forall r | 0 <= r < n :: c < |placement[r]| && Binary(placement[r])
    requires ColumnSum(placement, c, n) > 0
    ensures exists s | 0 <= s < n :: Holds(placement, s, c)
  {
    if placement[n - 1][c] != 1 {
      assert placement[n - 1][c] == 0;
      HolderExists(placement, c, n - 1);
    } else {
      assert Holds(placement, n - 1, c);
    }
  }

  /**
   * The `pi` of an oversubscribed course. Capacities are seat counts, so an
   * oversubscribed course always has a holder and `pi` is finite.
   */
  function Pi(market: Market, solver: Solver, prices: seq<real>, placement: Placement, c: nat): real
    requires IsPlacementOf(market, placement) && c < market.Courses()
    requires Overfull(market, placement, c)
  {
    PiIsFinite(market, solver, prices, placement, c);
    MinRise(market, solver, prices, placement, c, |placement|).value
  }

  /** An oversubscribed course has a holder, so its `pi` is no longer `math.inf` after the scan. */
  lemma PiIsFinite(market: Market, solver: Solver, prices: seq<real>, placement: Placement, c: nat)
    requires IsPlacementOf(market, placement) && c < market.Courses()
    requires Overfull(market, placement, c)
    ensures MinRise(market, solver, prices, placement, c, |placement|).Some?
  {
    HolderExists(placement, c, |placement|);
    MinRiseIsMinimum(market, solver, prices, placement, c, |placement|);
  }

  /**
   * The `pi` of an oversubscribed course is the smallest rise over the
   * students holding it, and one of them attains it.
   */
  lemma PiIsLeastRise(market: Market, solver: Solver, prices: seq<real>, placement: Placement, c: nat)
    requires IsPlacementOf(market, placement) && c < market.Courses()
    requires Overfull(market, placement, c)
    ensures var pi := Pi(market, solver, prices, placement, c);
      && (exists s | 0 <= s < |placement| && Holds(placement, s, c) :: pi == Rise(market, solver, prices, s, c))
      && (forall s | 0 <= s < |placement| && Holds(placement, s, c) :: pi <= Rise(market, solver, prices, s, c))
  {
    HolderExists(placement, c, |placement|);
    MinRiseIsMinimum(market, solver, prices, placement, c, |placement|);
  }

  /** The price neighbour of an oversubscribed course `c`. */
  function Raise(market: Market, solver: Solver, prices: seq<real>, placement: Placement, c: nat): (r: seq<real>)
    requires IsPlacementOf(market, placement) && c < market.Courses() == |prices|
    requires Overfull(market, placement, c)
    ensures |r| == |prices| && r[c] - prices[c] == Pi(market, solver, prices, placement, c)
    ensures forall i | 0 <= i < |r| && i != c :: r[i] == prices[i]
  {
    prices[c := prices[c] + Pi(market, solver, prices, placement, c)]
  }

  /** Step 1 of `neighbors`: the gradient neighbour, entry by entry. */
  method GradientNeighbor(prices: seq<real>, sums: seq<int>, capacity: seq<int>) returns (gradient: seq<real>)
    requires |prices| == |sums| <= |capacity|
    ensures gradient == AsPrices(Gradient(prices, sums, capacity))
  {
    gradient := [];
    var index := 0;
    while index < |sums|
      invariant 0 <= index <= |sums|
      invariant gradient == AsPrices(Gradient(prices, sums, capacity)[..index])
    {
      if prices[index] > 0.0 {
        gradient := gradient + [(sums[index] - capacity[index]) as real];
      } else {
        gradient := gradient + [(if sums[index] - capacity[index] > 0 then sums[index] - capacity[index] else 0) as real];
      }
      index := index + 1;
    }
    assert Gradient(prices, sums, capacity)[..index] == Gradient(prices, sums, capacity);
  }

  /**
   * Step 2 of `neighbors` for one oversubscribed course: scans the students
   * for `pi` and returns a copy of `prices` with only this course raised by it.
   */
  method PriceNeighbor(market: Market, solver: Solver, prices: seq<real>, placement: Placement, course: nat)
    returns (newPrices: seq<real>)
    requires IsPlacementOf(market, placement) && course < market.Courses() == |prices|
    requires Overfull(market, placement, course)
    ensures newPrices == Raise(market, solver, prices, placement, course)
  {
    var pi: Option<real> := None;
    var student := 0;
    while student < |market.budgets|
      invariant 0 <= student <= |market.budgets|
      invariant pi == MinRise(market, solver, prices, placement, course, student)
    {
      if placement[student][course] == 1 {
        var u := market.utilities[student];
        var o1 := solver.bestWithout(u, market.budgets[student], prices, course, market.numOfCourses);
        var o2 := solver.cheapestWith(u, prices, o1 + Epsilon, course, market.numOfCourses);
        if pi.None? || market.budgets[student] - o2 + Epsilon < pi.value {
          pi := Some(market.budgets[student] - o2 + Epsilon);
        }
      }
      student := student + 1;
    }
    HolderExists(placement, course, |placement|);
    MinRiseIsMinimum(market, solver, prices, placement, course, |placement|);
    newPrices := prices[course := prices[course] + pi.value];
  }

  /** Every course in `over` exists and is oversubscribed. */
  predicate AllOverfull(market: Market, placement: Placement, over: seq<nat>)
    requires IsPlacementOf(market, placement)
  {
    forall j | 0 <= j < |over| :: over[j] < market.Courses() && Overfull(market, placement, over[j])
  }

  /**
   * The oversubscribed courses among the first `n`, in the order the course
   * loop of `neighbors` meets them.
   */
  function OverfullCourses(market: Market, placement: Placement, n: nat): (over: seq<nat>)
    requires IsPlacementOf(market, placement) && n <= market.Courses()
    ensures AllOverfull(market, placement, over)
  {
    if n == 0 then []
    else
      var earlier := OverfullCourses(market, placement, n - 1);
      if Overfull(market, placement, n - 1) then earlier + [n - 1] else earlier
  }

  /**
   * The list holds each oversubscribed course among the first `n` exactly
   * once, in increasing order, and no other course.
   */
  lemma {:induction false} OverfullCoursesExactly(market: Market, placement: Placement, n: nat)
    requires IsPlacementOf(market, placement) && n <= market.Courses()
    ensures var over := OverfullCourses(market, placement, n);
      && (forall j | 0 <= j < |over| :: over[j] < n)
      && (forall i, j | 0 <= i < j < |over| :: over[i] < over[j])
      && (forall c | 0 <= c < n :: c in over <==> Overfull(market, placement, c))
  {
    if n > 0 {
      OverfullCoursesExactly(market, placement, n - 1);
    }
  }

  /** The price neighbours the course loop has made after scanning the first `n` courses. */
  function RaisedPrices(market: Market, solver: Solver, prices: seq<real>, placement: Placement, n: nat): seq<seq<real>>
    requires IsPlacementOf(market, placement) && n <= market.Courses() == |prices|
  {
    if n == 0 then []
    else
      RaisedPrices(market, solver, prices, placement, n - 1)
        + if Overfull(market, placement, n - 1) then [Raise(market, solver, prices, placement, n - 1)] else []
  }

  /**
   * After scanning the first `n` courses there is one price neighbour per
   * oversubscribed course among them, in increasing course order.
   */
  lemma {:induction false} RaisedPricesEach(market: Market, solver: Solver, prices: seq<real>, placement: Placement, n: nat)
    requires IsPlacementOf(market, placement) && n <= market.Courses() == |prices|
    ensures |RaisedPrices(market, solver, prices, placement, n)| == |OverfullCourses(market, placement, n)|
    ensures forall j | 0 <= j < |OverfullCourses(market, placement, n)| ::
      RaisedPrices(market, solver, prices, placement, n)[j]
        == Raise(market, solver, prices, placement, OverfullCourses(market, placement, n)[j])
  {
    if n > 0 {
      RaisedPricesEach(market, solver, prices, placement, n - 1);
    }
  }

  /**
   * Step 2 of `neighbors`: one price neighbour per oversubscribed course,
   * in increasing course order.
   */
  method PriceNeighbors(market: Market, solver: Solver, prices: seq<real>, placement: Placement, sums: seq<int>)
    returns (raised: seq<seq<real>>)
    requires IsPlacementOf(market, placement) && market.Courses() == |prices|
    requires sums == ColumnSums(placement, |prices|)
    ensures raised == RaisedPrices(market, solver, prices, placement, |prices|)
  {
    var capacity := market.capacity;
    raised := [];
    var course := 0;
    while course < |prices|
      invariant 0 <= course <= |prices|
      invariant raised == RaisedPrices(market, solver, prices, placement, course)
    {
      assert Overfull(market, placement, course) <==> capacity[course] < sums[course];
      if capacity[course] < sums[course] {
        var newPrices := PriceNeighbor(market, solver, prices, placement, course);
        raised := raised + [newPrices];
      }
      course := course + 1;
    }
  }

  /**
   * `list` is the gradient followed by one price neighbour per oversubscribed
   * course in increasing course order, each equal to `prices` except at its
   * course, raised there by that course's `pi`.
   */
  ghost predicate NeighborList(market: Market, solver: Solver, prices: seq<real>, placement: Placement, list: seq<seq<real>>) {
    && IsPlacementOf(market, placement)
    && |prices| == market.Courses()
    && var sums := ColumnSums(placement, |prices|);
      var over := OverfullCourses(market, placement, |prices|);
      && |list| == 1 + |over|
      && list[0] == AsPrices(Gradient(prices, sums, market.capacity))
      && forall j | 0 <= j < |over| :: list[1 + j] == Raise(market, solver, prices, placement, over[j])
  }

  /**
   * `neighbors(utilities, budgets, prices, capacity, num_of_courses)`: the
   * gradient first, then one price neighbour per oversubscribed course in
   * increasing course order. The input prices are a value and stay as they were.
   */
  method Neighbors(market: Market, solver: Solver, prices: seq<real>)
    returns (neighborsList: seq<seq<real>>, ghost placement: Placement)
    requires market.Valid() && solver.Valid() && |prices| == market.Courses()
    ensures placement == ChosenPlacement(market, solver, prices)
    ensures IsPlacementOf(market, placement)
    ensures NeighborList(market, solver, prices, placement, neighborsList)
    ensures forall i | 0 <= i < |neighborsList| :: |neighborsList[i]| == |prices|
  {
    var chosen := MaxUtilities(market, solver, prices);
    placement := chosen;
    var sums := ColumnSums(chosen, |prices|);
    // 1) the neighbour by gradient
    var gradient := GradientNeighbor(prices, sums, market.capacity);
    // 2) one neighbour per oversubscribed course
    var raised := PriceNeighbors(market, solver, prices, chosen, sums);
    neighborsList := [gradient] + raised;
    NeighborListIntro(market, solver, prices, chosen, neighborsList);
  }

  lemma NeighborListIntro(market: Market, solver: Solver, prices: seq<real>, placement: Placement, list: seq<seq<real>>)
    requires IsPlacementOf(market, placement) && |prices| == market.Courses()
    requires list == [AsPrices(Gradient(prices, ColumnSums(placement, |prices|), market.capacity))]
      + RaisedPrices(market, solver, prices, placement, |prices|)
    ensures NeighborList(market, solver, prices, placement, list)
    ensures forall i | 0 <= i < |list| :: |list[i]| == |prices|
  {
    var sums := ColumnSums(placement, |prices|);
    var over := OverfullCourses(market, placement, |prices|);
    var raised := RaisedPrices(market, solver, prices, placement, |prices|);
    RaisedPricesEach(market, solver, prices, placement, |prices|);
    assert list[0] == AsPrices(Gradient(prices, sums, market.capacity));
    assert list[1..] == raised;
    forall i | 0 <= i < |list|
      ensures |list[i]| == |prices|
    {
      if i > 0 {
        assert list[i] == raised[i - 1];
      }
    }
  }

  /** With no oversubscribed course, the only neighbour is the gradient. */
  lemma OnlyGradientWhenWithinCapacity(market: Market, placement: Placement)
    requires IsPlacementOf(market, placement)
    ensures OverfullCourses(market, placement, market.Courses()) == []
      <==> WithinCapacity(ColumnSums(placement, market.Courses()), market.capacity)
  {
    var over := OverfullCourses(market, placement, market.Courses());
    var sums := ColumnSums(placement, market.Courses());
    OverfullCoursesExactly(market, placement, market.Courses());
    if over != [] {
      assert over[0] in over && sums[over[0]] > market.capacity[over[0]];
    } else {
      forall c | 0 <= c < |sums|
        ensures sums[c] <= market.capacity[c]
      {
        assert !Overfull(market, placement, c);
      }
    }
  }
}
