/**
 * `course_allocation`: the tabu search over price vectors. It starts from
 * the given prices, repeatedly expands the current bundle into its
 * neighbours, takes the best-scored bundle it has not yet expanded from a
 * priority queue, and keeps the best bundle seen, until that bundle meets
 * the bound or 100 expansions have been made.
 */
module TabuSearch {
  import opened Wrappers
  import opened Demand
  import opened CourseMarket
  import opened Neighbors

  /** The allocator's `max_iterations`. */
  const MaxIterations: nat := 100

  /**
   * How a run ends: with the best bundle's placement, or blocked for ever
   * in `PriorityQueue.get()` once the queue has run dry.
   */
  datatype Outcome = Returned(placement: Placement) | BlocksForever

  /** A bundle of this run: of `market`, well formed, placement computed. */
  predicate Explored(market: Market, solver: Solver, b: CourseBundle)
    requires market.Valid() && solver.Valid()
  {
    b.market == market && b.Valid() && b.Evaluated(solver)
  }

  /** Price vector `p` is in one of the neighbour lists made so far. */
  ghost predicate Proposed(expanded: seq<seq<seq<real>>>, p: seq<real>) {
    exists k | 0 <= k < |expanded| :: p in expanded[k]
  }

  /** `tabu.__contains__(b)`: some bundle of `tabu` is `==` to `b`, that is, has its prices. */
  predicate InTabu(tabu: seq<CourseBundle>, b: CourseBundle)
    ensures b in tabu ==> InTabu(tabu, b)
    ensures InTabu(tabu, b) ==> tabu != []
  {
    exists i | 0 <= i < |tabu| :: tabu[i].Equals(b)
  }

  /**
   * Position `best` holds the least of `scores`, and every earlier position
   * a strictly greater one: the bundle a search keeps when it replaces its
   * best only on a strict improvement.
   */
  predicate FirstMinimum(scores: seq<nat>, best: nat) {
    && best < |scores|
    && (forall i | 0 <= i < |scores| :: scores[best] <= scores[i])
    && (forall i | 0 <= i < best :: scores[best] < scores[i])
  }

  /** Removing position `k` keeps the order of the rest. */
  lemma RemoveAt(s: seq<CourseBundle>, k: nat)
    requires k < |s|
    ensures |s[..k] + s[k + 1..]| == |s| - 1
    ensures multiset(s[..k] + s[k + 1..]) + multiset{s[k]} == multiset(s)
    ensures forall i | 0 <= i < k :: (s[..k] + s[k + 1..])[i] == s[i]
    ensures forall i | k < i < |s| :: (s[..k] + s[k + 1..])[i - 1] == s[i]
  {
    assert s == s[..k] + [s[k]] + s[k + 1..];
  }

  /**
   * The `PriorityQueue` of bundles: `put` adds a bundle, `get` removes one
   * of least score, as `Course_Bundle.__lt__` compares scores alone.
   */
  class BundleQueue {
    var items: seq<CourseBundle>

    /** Every queued bundle is well formed, so its score is defined. */
    predicate AllValid()
      reads this
    {
      forall i | 0 <= i < |items| :: items[i].Valid()
    }

    constructor ()
      ensures items == []
    {
      items := [];
    }

    /** `q.put(b)`. */
    method Put(b: CourseBundle)
      modifies this
      ensures items == old(items) + [b]
    {
      items := items + [b];
    }

    /**
     * `q.get()` on a queue that is not empty: removes and returns a bundle
     * whose score no other queued bundle beats.
     */
    method Get() returns (b: CourseBundle)
      requires items != [] && AllValid()
      modifies this
      ensures b in old(items) && b.Valid()
      ensures forall i | 0 <= i < |old(items)| :: b.Score() <= old(items)[i].Score()
      ensures multiset(items) + multiset{b} == multiset(old(items))
      ensures |items| == |old(items)| - 1 && AllValid()
      ensures forall i | 0 <= i < |items| :: b.Score() <= items[i].Score()
    {
      var least := 0;
      var i := 1;
      while i < |items|
        invariant 1 <= i <= |items| && least < i
        invariant forall j | 0 <= j < i :: items[least].Score() <= items[j].Score()
      {
        if items[i].Score() < items[least].Score() {
          least := i;
        }
        i := i + 1;
      }
      b := items[least];
      RemoveAt(items, least);
      items := items[..least] + items[least + 1..];
    }
  }

  /**
   * The loop over the current bundle's neighbours: builds a bundle at each
   * neighbour price vector and queues it, in the list's order.
   */
  method PushNeighbors(q: BundleQueue, market: Market, solver: Solver, list: seq<seq<real>>)
    returns (ghost pushed: seq<CourseBundle>)
    requires market.Valid() && solver.Valid()
    requires forall i | 0 <= i < |list| :: |list[i]| == market.Courses()
    modifies q
    ensures q.items == old(q.items) + pushed && |pushed| == |list|
    ensures forall j | 0 <= j < |list| :: Explored(market, solver, pushed[j]) && pushed[j].prices == list[j]
  {
    pushed := [];
    var i := 0;
    while i < |list|
      invariant 0 <= i <= |list|
      invariant q.items == old(q.items) + pushed && |pushed| == i
      invariant forall j | 0 <= j < i :: Explored(market, solver, pushed[j]) && pushed[j].prices == list[j]
    {
      var b := NewCourseBundle(market, solver, list[i]);
      q.Put(b);
      pushed := pushed + [b];
      i := i + 1;
    }
  }

  /**
   * Taking the next bundle and taking again while it is on the tabu list:
   * the first dequeued bundle not in `tabu`, or `None` when the queue runs
   * dry first and `get` would block. Every bundle it drops on the way is in
   * `tabu`.
   */
  method NextOutsideTabu(q: BundleQueue, tabu: seq<CourseBundle>)
    returns (next: Option<CourseBundle>, ghost dropped: seq<CourseBundle>)
    requires q.AllValid()
    modifies q
    ensures q.AllValid()
    ensures next.None? ==> q.items == [] && multiset(dropped) == multiset(old(q.items))
    ensures next.Some? ==> multiset(q.items) + multiset(dropped) + multiset{next.value} == multiset(old(q.items))
    ensures next.Some? ==> next.value.Valid() && !InTabu(tabu, next.value)
    ensures next.Some? ==> forall i | 0 <= i < |q.items| :: next.value.Score() <= q.items[i].Score()
    ensures forall j | 0 <= j < |dropped| :: InTabu(tabu, dropped[j])
  {
    dropped := [];
    while true
      invariant q.AllValid()
      invariant multiset(q.items) + multiset(dropped) == multiset(old(q.items))
      invariant forall j | 0 <= j < |dropped| :: InTabu(tabu, dropped[j])
      decreases |q.items|
    {
      if q.items == [] {
        return None, dropped;
      }
      ghost var before := q.items;
      var b := q.Get();
      if !InTabu(tabu, b) {
        return Some(b), dropped;
      }
      DropOne(q.items, before, dropped, b, multiset(old(q.items)), tabu);
      dropped := dropped + [b];
    }
  }

  /**
   * Moving a dequeued tabu bundle to the dropped ones keeps the two
   * together equal to the original queue.
   */
  lemma DropOne(items: seq<CourseBundle>, before: seq<CourseBundle>, dropped: seq<CourseBundle>, b: CourseBundle,
                original: multiset<CourseBundle>, tabu: seq<CourseBundle>)
    requires multiset(items) + multiset{b} == multiset(before)
    requires multiset(before) + multiset(dropped) == original
    requires InTabu(tabu, b) && forall j | 0 <= j < |dropped| :: InTabu(tabu, dropped[j])
    ensures multiset(items) + multiset(dropped + [b]) == original
    ensures forall j | 0 <= j < |dropped + [b]| :: InTabu(tabu, (dropped + [b])[j])
  {
    assert multiset(dropped + [b]) == multiset(dropped) + multiset{b};
  }

  /** A score over the bound stays over it when the score grows. */
  lemma AboveBoundMonotone(a: real, b: real, bound: real)
    requires AboveBound(a, bound) && a <= b
    ensures AboveBound(b, bound)
  {
  }

  /** A price vector once proposed stays proposed as neighbour lists are added. */
  lemma ProposedGrows(expanded: seq<seq<seq<real>>>, list: seq<seq<real>>, p: seq<real>)
    requires Proposed(expanded, p)
    ensures Proposed(expanded + [list], p)
  {
    var k :| 0 <= k < |expanded| && p in expanded[k];
    assert (expanded + [list])[k] == expanded[k];
  }

  /**
   * One expansion of the tabu loop once `curr_node` is on the tabu list:
   * queues a bundle for each neighbour of `curr` and takes the next bundle
   * off the queue that is not on the tabu list, if the queue does not run dry.
   */
  method Expand(q: BundleQueue, market: Market, solver: Solver, curr: CourseBundle, tabu: seq<CourseBundle>,
                ghost selected: seq<CourseBundle>, ghost expanded: seq<seq<seq<real>>>)
    returns (next: Option<CourseBundle>, ghost list: seq<seq<real>>, ghost from: nat)
    requires market.Valid() && solver.Valid() && Explored(market, solver, curr)
    requires |expanded| < |selected| && selected[|expanded|] == curr
    requires Expansions(market, solver, selected, expanded)
    requires QueueProposed(market, solver, q.items, expanded) && Covered(q.items, tabu, expanded)
    modifies q
    ensures Expansions(market, solver, selected, expanded + [list])
    ensures QueueProposed(market, solver, q.items, expanded + [list])
    ensures next.None? ==> q.items == [] && Covered(q.items, tabu, expanded + [list])
    ensures next.Some? ==>
      && Explored(market, solver, next.value)
      && from <= |expanded| && next.value.prices in (expanded + [list])[from]
      && !InTabu(tabu, next.value)
      && Covered(q.items, tabu + [next.value], expanded + [list])
      && forall i | 0 <= i < |q.items| :: next.value.Score() <= q.items[i].Score()
  {
    var neighborsList, placement := Neighbors.Neighbors(market, solver, curr.prices);
    list := neighborsList;
    ExpansionsExtend(market, solver, selected, expanded, list);
    next, from := PushAndTake(q, market, solver, neighborsList, tabu, expanded);
  }

  /**
   * The rest of an expansion once the neighbour list `list` is known: queues
   * a bundle per neighbour, then takes the next bundle not on the tabu list.
   * Everything then queued or taken was proposed by `list` or an earlier list.
   */
  method PushAndTake(q: BundleQueue, market: Market, solver: Solver, list: seq<seq<real>>, tabu: seq<CourseBundle>,
                     ghost expanded: seq<seq<seq<real>>>)
    returns (next: Option<CourseBundle>, ghost from: nat)
    requires market.Valid() && solver.Valid()
    requires forall i | 0 <= i < |list| :: |list[i]| == market.Courses()
    requires QueueProposed(market, solver, q.items, expanded) && Covered(q.items, tabu, expanded)
    modifies q
    ensures QueueProposed(market, solver, q.items, expanded + [list])
    ensures next.None? ==> q.items == [] && Covered(q.items, tabu, expanded + [list])
    ensures next.Some? ==>
      && Explored(market, solver, next.value)
      && from <= |expanded| && next.value.prices in (expanded + [list])[from]
      && !InTabu(tabu, next.value)
      && Covered(q.items, tabu + [next.value], expanded + [list])
      && forall i | 0 <= i < |q.items| :: next.value.Score() <= q.items[i].Score()
  {
    ghost var queued := q.items;
    ghost var pushed := PushNeighbors(q, market, solver, list);
    ghost var all := expanded + [list];
    PushedProposed(market, solver, queued, pushed, expanded, list);
    CoveredPush(queued, pushed, tabu, expanded, list);
    next, from := TakeNext(q, market, solver, tabu, all);
  }

  /**
   * Taking the next non-tabu bundle from a queue whose bundles were all
   * proposed by the lists in `all`: the bundle taken was proposed too, it
   * scores no more than anything left queued, and every proposal stays
   * queued or selected.
   */
  method TakeNext(q: BundleQueue, market: Market, solver: Solver, tabu: seq<CourseBundle>,
                  ghost all: seq<seq<seq<real>>>)
    returns (next: Option<CourseBundle>, ghost from: nat)
    requires market.Valid() && solver.Valid()
    requires QueueProposed(market, solver, q.items, all) && Covered(q.items, tabu, all)
    modifies q
    ensures QueueProposed(market, solver, q.items, all)
    ensures next.None? ==> q.items == [] && Covered(q.items, tabu, all)
    ensures next.Some? ==>
      && Explored(market, solver, next.value)
      && from < |all| && next.value.prices in all[from]
      && !InTabu(tabu, next.value)
      && Covered(q.items, tabu + [next.value], all)
      && forall i | 0 <= i < |q.items| :: next.value.Score() <= q.items[i].Score()
  {
    ghost var full := q.items;
    ghost var dropped;
    next, dropped := NextOutsideTabu(q, tabu);
    if next.Some? {
      from := AfterTake(market, solver, full, q.items, dropped, [next.value], tabu, all);
    } else {
      from := AfterTake(market, solver, full, q.items, dropped, [], tabu, all);
      assert tabu + [] == tabu;
    }
  }

  /**
   * What is left of a queue after dropping tabu bundles and taking at most
   * one: all of it was proposed, the bundle taken was proposed by list
   * `from`, and every proposal stays queued or selected.
   */
  lemma AfterTake(market: Market, solver: Solver, full: seq<CourseBundle>, rest: seq<CourseBundle>,
                  dropped: seq<CourseBundle>, taken: seq<CourseBundle>, tabu: seq<CourseBundle>,
                  all: seq<seq<seq<real>>>)
    returns (from: nat)
    requires market.Valid() && solver.Valid() && |taken| <= 1
    requires QueueProposed(market, solver, full, all) && Covered(full, tabu, all)
    requires multiset(rest) + multiset(dropped) + multiset(taken) == multiset(full)
    requires forall j | 0 <= j < |dropped| :: InTabu(tabu, dropped[j])
    ensures QueueProposed(market, solver, rest, all) && Covered(rest, tabu + taken, all)
    ensures |taken| == 1 ==> Explored(market, solver, taken[0]) && from < |all| && taken[0].prices in all[from]
  {
    SubQueueProposed(market, solver, full, rest, all);
    CoveredTake(full, rest, dropped, taken, tabu, all);
    from := 0;
    if |taken| == 1 {
      assert taken[0] in multiset(full);
      MemberProposed(market, solver, full, taken[0], all);
      from :| 0 <= from < |all| && taken[0].prices in all[from];
    }
  }

  /** Some bundle of `bundles` has the prices `p`. */
  ghost predicate HasPrices(bundles: seq<CourseBundle>, p: seq<real>) {
    exists i | 0 <= i < |bundles| :: bundles[i].prices == p
  }

  /** Every price vector proposed so far is still queued or has been selected. */
  ghost predicate Covered(items: seq<CourseBundle>, selected: seq<CourseBundle>, expanded: seq<seq<seq<real>>>) {
    forall k, p | 0 <= k < |expanded| && p in expanded[k] :: HasPrices(items, p) || HasPrices(selected, p)
  }

  /** Every price vector proposed so far has been selected. */
  ghost predicate Exhausted(selected: seq<CourseBundle>, expanded: seq<seq<seq<real>>>) {
    forall k, p | 0 <= k < |expanded| && p in expanded[k] :: HasPrices(selected, p)
  }

  /** The squared score of the bundle a run builds at prices `p`. */
  ghost function PriceScore(market: Market, solver: Solver, p: seq<real>): nat
    requires market.Valid() && solver.Valid()
  {
    SquaredExcess(ColumnSums(ChosenPlacement(market, solver, p), market.Courses()), market.capacity)
  }

  lemma ExploredScore(market: Market, solver: Solver, b: CourseBundle)
    requires market.Valid() && solver.Valid() && Explored(market, solver, b)
    ensures b.Score() == PriceScore(market, solver, b.prices)
  {
  }

  /**
   * The queue's best-first order over a whole run: each bundle selected
   * after the first scores no more than any price vector proposed before it
   * was taken that had not been selected by then.
   */
  ghost predicate BestFirst(market: Market, solver: Solver, selected: seq<CourseBundle>, scores: seq<nat>,
                            expanded: seq<seq<seq<real>>>)
    requires market.Valid() && solver.Valid() && |scores| == |selected|
  {
    forall m, k, p | 1 <= m < |selected| && 0 <= k < m && k < |expanded| && p in expanded[k]
                     && !HasPrices(selected[..m + 1], p) ::
      scores[m] <= PriceScore(market, solver, p)
  }

  /**
   * A bundle whose score is at most that of every queued bundle scores at
   * most every proposal not yet selected, when each proposal is queued or selected.
   */
  lemma LeastPending(market: Market, solver: Solver, items: seq<CourseBundle>, selected: seq<CourseBundle>,
                     all: seq<seq<seq<real>>>, score: nat)
    requires market.Valid() && solver.Valid()
    requires forall i | 0 <= i < |items| :: Explored(market, solver, items[i]) && score <= items[i].Score()
    requires Covered(items, selected, all)
    ensures forall k, p | 0 <= k < |all| && p in all[k] && !HasPrices(selected, p) ::
      score <= PriceScore(market, solver, p)
  {
    forall k, p | 0 <= k < |all| && p in all[k] && !HasPrices(selected, p)
      ensures score <= PriceScore(market, solver, p)
    {
      var i :| 0 <= i < |items| && items[i].prices == p;
      ExploredScore(market, solver, items[i]);
    }
  }

  /** Selecting a bundle that scores at most every pending proposal extends the best-first order. */
  lemma BestFirstAppend(market: Market, solver: Solver, selected: seq<CourseBundle>, scores: seq<nat>,
                        expanded: seq<seq<seq<real>>>, list: seq<seq<real>>, b: CourseBundle, score: nat)
    requires market.Valid() && solver.Valid() && |scores| == |selected| == |expanded| + 1
    requires BestFirst(market, solver, selected, scores, expanded)
    requires forall k, p | 0 <= k < |expanded| + 1 && p in (expanded + [list])[k] && !HasPrices(selected + [b], p) ::
      score <= PriceScore(market, solver, p)
    ensures BestFirst(market, solver, selected + [b], scores + [score], expanded + [list])
  {
    var sel, sc, ex := selected + [b], scores + [score], expanded + [list];
    forall m, k, p | 1 <= m < |sel| && 0 <= k < m && k < |ex| && p in ex[k] && !HasPrices(sel[..m + 1], p)
      ensures sc[m] <= PriceScore(market, solver, p)
    {
      if m < |selected| {
        assert sel[..m + 1] == selected[..m + 1];
        assert ex[k] == expanded[k];
      } else {
        assert sel[..m + 1] == sel;
      }
    }
  }

  /** A neighbour list with no selection after it leaves the best-first order as it was. */
  lemma BestFirstExtend(market: Market, solver: Solver, selected: seq<CourseBundle>, scores: seq<nat>,
                        expanded: seq<seq<seq<real>>>, list: seq<seq<real>>)
    requires market.Valid() && solver.Valid() && |scores| == |selected| == |expanded| + 1
    requires BestFirst(market, solver, selected, scores, expanded)
    ensures BestFirst(market, solver, selected, scores, expanded + [list])
  {
    forall m, k, p | 1 <= m < |selected| && 0 <= k < m && k < |expanded| + 1 && p in (expanded + [list])[k]
                     && !HasPrices(selected[..m + 1], p)
      ensures scores[m] <= PriceScore(market, solver, p)
    {
      assert (expanded + [list])[k] == expanded[k];
    }
  }

  lemma HasPricesAppend(s: seq<CourseBundle>, t: seq<CourseBundle>, p: seq<real>)
    requires HasPrices(s, p) || HasPrices(t, p)
    ensures HasPrices(s + t, p)
  {
    if HasPrices(s, p) {
      var i :| 0 <= i < |s| && s[i].prices == p;
      assert (s + t)[i] == s[i];
    } else {
      var i :| 0 <= i < |t| && t[i].prices == p;
      assert (s + t)[|s| + i] == t[i];
    }
  }

  /** Queuing one bundle per entry of a new neighbour list keeps every proposal covered. */
  lemma CoveredPush(queued: seq<CourseBundle>, pushed: seq<CourseBundle>, selected: seq<CourseBundle>,
                    expanded: seq<seq<seq<real>>>, list: seq<seq<real>>)
    requires Covered(queued, selected, expanded) && |pushed| == |list|
    requires forall j | 0 <= j < |list| :: pushed[j].prices == list[j]
    ensures Covered(queued + pushed, selected, expanded + [list])
  {
    var all := expanded + [list];
    forall k, p | 0 <= k < |all| && p in all[k]
      ensures HasPrices(queued + pushed, p) || HasPrices(selected, p)
    {
      if k < |expanded| {
        assert all[k] == expanded[k];
        if HasPrices(queued, p) {
          HasPricesAppend(queued, pushed, p);
        }
      } else {
        var j :| 0 <= j < |list| && list[j] == p;
        assert pushed[j].prices == p;
        HasPricesAppend(queued, pushed, p);
      }
    }
  }

  /**
   * Taking bundles off the queue keeps every proposal covered when each
   * dropped one is on the tabu list and the ones `taken` join the selected.
   */
  lemma CoveredTake(full: seq<CourseBundle>, rest: seq<CourseBundle>, dropped: seq<CourseBundle>,
                    taken: seq<CourseBundle>, selected: seq<CourseBundle>, all: seq<seq<seq<real>>>)
    requires Covered(full, selected, all)
    requires multiset(rest) + multiset(dropped) + multiset(taken) == multiset(full)
    requires forall j | 0 <= j < |dropped| :: InTabu(selected, dropped[j])
    ensures Covered(rest, selected + taken, all)
  {
    forall k, p | 0 <= k < |all| && p in all[k]
      ensures HasPrices(rest, p) || HasPrices(selected + taken, p)
    {
      if HasPrices(full, p) {
        var i :| 0 <= i < |full| && full[i].prices == p;
        var x := full[i];
        assert x in multiset(full);
        if x in multiset(rest) {
          var j :| 0 <= j < |rest| && rest[j] == x;
        } else if x in multiset(dropped) {
          var j :| 0 <= j < |dropped| && dropped[j] == x;
          var t :| 0 <= t < |selected| && selected[t].Equals(x);
          HasPricesAppend(selected, taken, p);
        } else {
          assert x in multiset(taken);
          var j :| 0 <= j < |taken| && taken[j] == x;
          HasPricesAppend(selected, taken, p);
        }
      } else {
        HasPricesAppend(selected, taken, p);
      }
    }
  }

  /** The queue after `PushNeighbors`: the old bundles, then one per neighbour of the new list. */
  lemma PushedProposed(market: Market, solver: Solver, queued: seq<CourseBundle>, pushed: seq<CourseBundle>,
                       expanded: seq<seq<seq<real>>>, list: seq<seq<real>>)
    requires market.Valid() && solver.Valid()
    requires QueueProposed(market, solver, queued, expanded) && |pushed| == |list|
    requires forall j | 0 <= j < |list| :: Explored(market, solver, pushed[j]) && pushed[j].prices == list[j]
    ensures QueueProposed(market, solver, queued + pushed, expanded + [list])
  {
    var items := queued + pushed;
    var all := expanded + [list];
    forall i | 0 <= i < |items|
      ensures Explored(market, solver, items[i]) && Proposed(all, items[i].prices)
    {
      if i < |queued| {
        assert items[i] == queued[i];
        ProposedGrows(expanded, list, items[i].prices);
      } else {
        assert items[i] == pushed[i - |queued|];
        assert all[|expanded|] == list;
      }
    }
  }

  /** A bundle taken from a queue whose bundles were all proposed was proposed. */
  lemma MemberProposed(market: Market, solver: Solver, full: seq<CourseBundle>, x: CourseBundle,
                       all: seq<seq<seq<real>>>)
    requires market.Valid() && solver.Valid()
    requires QueueProposed(market, solver, full, all) && x in multiset(full)
    ensures Explored(market, solver, x) && Proposed(all, x.prices)
  {
    var i :| 0 <= i < |full| && full[i] == x;
  }

  /** What is left of a queue whose bundles were all proposed. */
  lemma SubQueueProposed(market: Market, solver: Solver, full: seq<CourseBundle>, rest: seq<CourseBundle>,
                         all: seq<seq<seq<real>>>)
    requires market.Valid() && solver.Valid()
    requires QueueProposed(market, solver, full, all) && multiset(rest) <= multiset(full)
    ensures QueueProposed(market, solver, rest, all)
  {
    forall i | 0 <= i < |rest|
      ensures Explored(market, solver, rest[i]) && Proposed(all, rest[i].prices)
    {
      assert rest[i] in multiset(rest);
      MemberProposed(market, solver, full, rest[i], all);
    }
  }

  /** Every queued bundle belongs to this run and was proposed by some neighbour list. */
  ghost predicate QueueProposed(market: Market, solver: Solver, items: seq<CourseBundle>, expanded: seq<seq<seq<real>>>)
    requires market.Valid() && solver.Valid()
  {
    forall i | 0 <= i < |items| :: Explored(market, solver, items[i]) && Proposed(expanded, items[i].prices)
  }

  /** Every bundle of `selected` belongs to this run and `scores` holds their scores. */
  ghost predicate Scored(market: Market, solver: Solver, selected: seq<CourseBundle>, scores: seq<nat>)
    requires market.Valid() && solver.Valid()
  {
    && |scores| == |selected|
    && forall i | 0 <= i < |selected| :: Explored(market, solver, selected[i]) && scores[i] == selected[i].Score()
  }

  lemma ScoredAt(market: Market, solver: Solver, selected: seq<CourseBundle>, scores: seq<nat>, i: nat)
    requires market.Valid() && solver.Valid() && Scored(market, solver, selected, scores) && i < |selected|
    ensures Explored(market, solver, selected[i]) && scores[i] == selected[i].Score()
  {
  }

  lemma ScoredAppend(market: Market, solver: Solver, selected: seq<CourseBundle>, scores: seq<nat>, b: CourseBundle, score: nat)
    requires market.Valid() && solver.Valid() && Scored(market, solver, selected, scores)
    requires Explored(market, solver, b) && score == b.Score()
    ensures Scored(market, solver, selected + [b], scores + [score])
  {
  }

  /** Price vectors of distinct positions in `selected` differ. */
  ghost predicate PricesDistinct(selected: seq<CourseBundle>) {
    forall i, j | 0 <= i < j < |selected| :: selected[i].prices != selected[j].prices
  }

  /** A bundle outside the tabu list keeps the selected price vectors distinct. */
  lemma PricesDistinctAppend(selected: seq<CourseBundle>, b: CourseBundle)
    requires PricesDistinct(selected) && !InTabu(selected, b)
    ensures PricesDistinct(selected + [b])
  {
    forall i, j | 0 <= i < j < |selected| + 1
      ensures (selected + [b])[i].prices != (selected + [b])[j].prices
    {
      if j == |selected| {
        assert !selected[i].Equals(b);
      }
    }
  }

  /** Appending a strictly better score moves the best position to it; otherwise the best stays. */
  lemma FirstMinimumAppend(scores: seq<nat>, best: nat, score: nat)
    requires FirstMinimum(scores, best)
    ensures score < scores[best] ==> FirstMinimum(scores + [score], |scores|)
    ensures score >= scores[best] ==> FirstMinimum(scores + [score], best)
  {
  }

  /** The first `n` scores are over the bound. */
  predicate OverBound(scores: seq<nat>, n: nat, bound: real)
    requires n <= |scores|
  {
    forall i | 0 <= i < n :: AboveBound(scores[i] as real, bound)
  }

  /**
   * While the loop runs, the least score is over the bound, so the score at
   * position `n` is over it too.
   */
  lemma OverBoundExtend(scores: seq<nat>, n: nat, best: nat, bound: real)
    requires n < |scores| && FirstMinimum(scores, best) && OverBound(scores, n, bound)
    requires AboveBound(scores[best] as real, bound)
    ensures OverBound(scores, n + 1, bound)
  {
    AboveBoundMonotone(scores[best] as real, scores[n] as real, bound);
  }

  /** `expanded[k]` is the neighbour list of `selected[k]`. */
  ghost predicate Expansions(market: Market, solver: Solver, selected: seq<CourseBundle>, expanded: seq<seq<seq<real>>>)
    requires |expanded| <= |selected|
  {
    forall k | 0 <= k < |expanded| ::
      NeighborList(market, solver, selected[k].prices, selected[k].placement, expanded[k])
  }

  lemma ExpansionsExtend(market: Market, solver: Solver, selected: seq<CourseBundle>, expanded: seq<seq<seq<real>>>,
                         list: seq<seq<real>>)
    requires |expanded| < |selected| && Expansions(market, solver, selected, expanded)
    requires NeighborList(market, solver, selected[|expanded|].prices, selected[|expanded|].placement, list)
    ensures Expansions(market, solver, selected, expanded + [list])
  {
  }

  lemma ExpansionsGrow(market: Market, solver: Solver, selected: seq<CourseBundle>, expanded: seq<seq<seq<real>>>,
                       b: CourseBundle)
    requires |expanded| <= |selected| && Expansions(market, solver, selected, expanded)
    ensures Expansions(market, solver, selected + [b], expanded)
  {
  }

  /** `origin[m]` is an earlier position whose neighbour list holds the prices of `selected[m]`. */
  ghost predicate Origins(selected: seq<CourseBundle>, expanded: seq<seq<seq<real>>>, origin: seq<nat>)
    requires |origin| == |selected|
  {
    forall m | 1 <= m < |selected| :: origin[m] < m && origin[m] < |expanded| && selected[m].prices in expanded[origin[m]]
  }

  lemma OriginsAppend(selected: seq<CourseBundle>, expanded: seq<seq<seq<real>>>, origin: seq<nat>,
                      list: seq<seq<real>>, b: CourseBundle, from: nat)
    requires |origin| == |selected| && Origins(selected, expanded, origin)
    requires from <= |expanded| < |selected| && b.prices in (expanded + [list])[from]
    ensures Origins(selected + [b], expanded + [list], origin + [from])
  {
    var selected', expanded' := selected + [b], expanded + [list];
    forall m | 1 <= m < |selected'|
      ensures (origin + [from])[m] < m && (origin + [from])[m] < |expanded'|
      ensures selected'[m].prices in expanded'[(origin + [from])[m]]
    {
      if m < |selected| {
        assert expanded'[origin[m]] == expanded[origin[m]];
      }
    }
  }

  /** A sequence is its proper prefix followed by its last element. */
  lemma LastAppended<T>(s: seq<T>, n: nat)
    requires |s| == n + 1
    ensures s[..n] + [s[n]] == s
  {
  }

  /** Appending leaves the earlier elements as a prefix. */
  lemma PrefixOfAppend<T>(s: seq<T>, x: T)
    ensures (s + [x])[..|s|] == s
  {
  }

  /**
   * The state the tabu loop keeps at the top of each iteration. The compiled
   * variables are `counter`, `curr_node`, `tabu`, `best_node`, `best_score`
   * and the queue; the ghost ones record the run: `selected` the successive
   * values of `curr_node` and `scores` their scores, `expanded[k]` the
   * neighbour list of `selected[k]`, `origin[m]` the earlier bundle whose
   * neighbour list proposed `selected[m]`, and `best` the position of
   * `best_node` in `selected`.
   */
  ghost predicate SearchState(market: Market, solver: Solver, prices: seq<real>, bound: real, q: BundleQueue,
                              counter: nat, curr: CourseBundle, tabu: seq<CourseBundle>,
                              bestNode: CourseBundle, bestScore: nat,
                              selected: seq<CourseBundle>, scores: seq<nat>, expanded: seq<seq<seq<real>>>,
                              origin: seq<nat>, best: nat)
    requires market.Valid() && solver.Valid()
    reads q
  {
    && History(market, solver, prices, bound, counter, curr, tabu, bestNode, bestScore,
               selected, scores, expanded, origin, best)
    && QueueProposed(market, solver, q.items, expanded)
    && Covered(q.items, selected, expanded)
    && BestFirst(market, solver, selected, scores, expanded)
  }

  /** The part of `SearchState` about the bundles selected so far. */
  ghost predicate History(market: Market, solver: Solver, prices: seq<real>, bound: real,
                          counter: nat, curr: CourseBundle, tabu: seq<CourseBundle>,
                          bestNode: CourseBundle, bestScore: nat,
                          selected: seq<CourseBundle>, scores: seq<nat>, expanded: seq<seq<seq<real>>>,
                          origin: seq<nat>, best: nat)
    requires market.Valid() && solver.Valid()
  {
    && counter <= MaxIterations
    && |selected| == |origin| == counter + 1 && |expanded| == counter
    && selected[0] == CourseBundle(market, prices, ChosenPlacement(market, solver, prices))
    && curr == selected[counter] && tabu == selected[..counter]
    && Scored(market, solver, selected, scores)
    && PricesDistinct(selected)
    && FirstMinimum(scores, best) && bestNode == selected[best] && bestScore == scores[best]
    && OverBound(scores, counter, bound)
    && Expansions(market, solver, selected, expanded)
    && Origins(selected, expanded, origin)
  }

  /**
   * Selecting `next`, a bundle proposed by the neighbour list `list` of
   * `curr` and not on the tabu list, extends the history by one step, with
   * the best bundle replaced only on a strict improvement.
   */
  lemma HistoryAppend(market: Market, solver: Solver, prices: seq<real>, bound: real,
                      counter: nat, curr: CourseBundle, tabu: seq<CourseBundle>,
                      bestNode: CourseBundle, bestScore: nat,
                      selected: seq<CourseBundle>, scores: seq<nat>, expanded: seq<seq<seq<real>>>,
                      origin: seq<nat>, best: nat,
                      list: seq<seq<real>>, next: CourseBundle, from: nat, nextScore: nat)
    requires market.Valid() && solver.Valid()
    requires counter < MaxIterations && AboveBound(bestScore as real, bound)
    requires History(market, solver, prices, bound, counter, curr, tabu, bestNode, bestScore,
                     selected, scores, expanded, origin, best)
    requires Expansions(market, solver, selected, expanded + [list])
    requires Explored(market, solver, next) && nextScore == next.Score()
    requires from <= |expanded| && next.prices in (expanded + [list])[from]
    requires !InTabu(tabu + [curr], next)
    ensures History(market, solver, prices, bound, counter + 1, next, tabu + [curr],
                    if nextScore < bestScore then next else bestNode,
                    if nextScore < bestScore then nextScore else bestScore,
                    selected + [next], scores + [nextScore], expanded + [list], origin + [from],
                    if nextScore < bestScore then counter + 1 else best)
  {
    ScoredAt(market, solver, selected, scores, counter);
    AboveBoundMonotone(bestScore as real, scores[counter] as real, bound);
    LastAppended(selected, counter);
    ExpansionsGrow(market, solver, selected, expanded + [list], next);
    OriginsAppend(selected, expanded, origin, list, next, from);
    ScoredAppend(market, solver, selected, scores, next, nextScore);
    PricesDistinctAppend(selected, next);
    FirstMinimumAppend(scores, best, nextScore);
    OverBoundAppend(scores, counter, bound, nextScore);
    PrefixOfAppend(selected, next);
  }

  /**
   * One pass of the tabu loop while the best score is still over the bound:
   * puts `curr_node` on the tabu list, queues its neighbours and takes the
   * next bundle off the queue, keeping the better of it and `best_node`.
   * `blocked` says the queue ran dry, so that `q.get()` would wait for ever;
   * the run then has one more neighbour list than selected bundles past the first.
   */
  method SearchStep(market: Market, solver: Solver, prices: seq<real>, bound: real, q: BundleQueue,
                    counter: nat, curr: CourseBundle, tabu: seq<CourseBundle>,
                    bestNode: CourseBundle, bestScore: nat,
                    ghost selected: seq<CourseBundle>, ghost scores: seq<nat>, ghost expanded: seq<seq<seq<real>>>,
                    ghost origin: seq<nat>, ghost best: nat)
    returns (blocked: bool, curr': CourseBundle, tabu': seq<CourseBundle>, bestNode': CourseBundle, bestScore': nat,
             ghost selected': seq<CourseBundle>, ghost scores': seq<nat>, ghost expanded': seq<seq<seq<real>>>,
             ghost origin': seq<nat>, ghost best': nat)
    requires market.Valid() && solver.Valid()
    requires counter < MaxIterations && AboveBound(bestScore as real, bound)
    requires SearchState(market, solver, prices, bound, q, counter, curr, tabu, bestNode, bestScore,
                         selected, scores, expanded, origin, best)
    modifies q
    ensures !blocked ==>
      SearchState(market, solver, prices, bound, q, counter + 1, curr', tabu', bestNode', bestScore',
                  selected', scores', expanded', origin', best')
    // the new `curr_node` scores no more than any bundle still queued
    ensures !blocked ==>
      |scores'| == counter + 2 && forall i | 0 <= i < |q.items| :: scores'[counter + 1] <= q.items[i].Score()
    ensures blocked ==>
      && selected' == selected && scores' == scores && origin' == origin && |expanded'| == counter + 1
      && Expansions(market, solver, selected, expanded') && Origins(selected, expanded', origin)
      && Exhausted(selected, expanded') && BestFirst(market, solver, selected, scores, expanded')
  {
    ScoredAt(market, solver, selected, scores, counter);
    LastAppended(selected, counter);
    tabu' := tabu + [curr];
    var next;
    ghost var list, from;
    next, list, from := Expand(q, market, solver, curr, tabu', selected, expanded);
    expanded' := expanded + [list];
    if next.None? {
      OriginsExtend(selected, expanded, origin, list);
      ExhaustedWhenDry(selected, expanded');
      BestFirstExtend(market, solver, selected, scores, expanded, list);
      blocked, curr', bestNode', bestScore' := true, curr, bestNode, bestScore;
      selected', scores', origin', best' := selected, scores, origin, best;
      return;
    }
    blocked := false;
    curr' := next.value;
    var currScore := ScoreOf(curr');
    LeastPending(market, solver, q.items, tabu' + [curr'], expanded', currScore);
    BestFirstAppend(market, solver, selected, scores, expanded, list, curr', currScore);
    HistoryAppend(market, solver, prices, bound, counter, curr, tabu, bestNode, bestScore,
                  selected, scores, expanded, origin, best, list, curr', from, currScore);
    if currScore < bestScore {
      bestNode', bestScore', best' := curr', currScore, counter + 1;
    } else {
      bestNode', bestScore', best' := bestNode, bestScore, best;
    }
    selected', scores', origin' := selected + [curr'], scores + [currScore], origin + [from];
  }


  /** With nothing left in the queue, every proposal covered has been selected. */
  lemma ExhaustedWhenDry(selected: seq<CourseBundle>, expanded: seq<seq<seq<real>>>)
    requires Covered([], selected, expanded)
    ensures Exhausted(selected, expanded)
  {
  }

  /** Adding a neighbour list keeps every origin in place. */
  lemma OriginsExtend(selected: seq<CourseBundle>, expanded: seq<seq<seq<real>>>, origin: seq<nat>,
                      list: seq<seq<real>>)
    requires |origin| == |selected| && Origins(selected, expanded, origin)
    ensures Origins(selected, expanded + [list], origin)
  {
    forall m | 1 <= m < |selected|
      ensures selected[m].prices in (expanded + [list])[origin[m]]
    {
      assert (expanded + [list])[origin[m]] == expanded[origin[m]];
    }
  }

  /** A score over the bound at position `n` carries `OverBound` one position further, whatever is appended. */
  lemma OverBoundAppend(scores: seq<nat>, n: nat, bound: real, score: nat)
    requires n < |scores| && OverBound(scores, n, bound) && AboveBound(scores[n] as real, bound)
    ensures OverBound(scores + [score], n + 1, bound)
  {
    assert forall i | 0 <= i < n + 1 :: (scores + [score])[i] == scores[i];
  }

  /**
   * `course_allocation(utilities, budgets, prices, capacity, num_of_courses, bound)`.
   * Besides the outcome, the ghost results record the run: `iterations` is
   * the final `counter`; `selected` the successive values of `curr_node`,
   * from the bundle at the given prices on, and `scores` their scores;
   * `expanded[k]` the neighbour list of `selected[k]`; `origin[m]` the
   * earlier bundle whose neighbour list proposed `selected[m]`; and `best`
   * the position of `best_node` in `selected`.
   */
  method CourseAllocation(market: Market, solver: Solver, prices: seq<real>, bound: real)
    returns (outcome: Outcome, ghost iterations: nat, ghost selected: seq<CourseBundle>, ghost scores: seq<nat>,
             ghost expanded: seq<seq<seq<real>>>, ghost origin: seq<nat>, ghost best: nat)
    requires market.Valid() && solver.Valid() && |prices| == market.Courses()
    ensures iterations <= MaxIterations
    ensures |selected| == |origin| == iterations + 1
    ensures selected[0] == CourseBundle(market, prices, ChosenPlacement(market, solver, prices))
    ensures Scored(market, solver, selected, scores)
    // the tabu list: no price vector is selected twice
    ensures PricesDistinct(selected)
    // every later bundle is a neighbour of an earlier one
    ensures |selected| - 1 <= |expanded| <= |selected|
    ensures Expansions(market, solver, selected, expanded)
    ensures Origins(selected, expanded, origin)
    // the queue hands out bundles best first
    ensures BestFirst(market, solver, selected, scores, expanded)
    // the search goes on only while the best score is over the bound
    ensures OverBound(scores, iterations, bound)
    ensures outcome.Returned? ==>
      && |expanded| == iterations
      && FirstMinimum(scores, best)
      && outcome.placement == selected[best].placement
      && (iterations < MaxIterations ==> !AboveBound(scores[best] as real, bound))
    // `q.get()` waits for ever only once every proposed price vector has been selected
    ensures outcome.BlocksForever? ==>
      |expanded| == iterations + 1 && iterations < MaxIterations && Exhausted(selected, expanded)
    // it blocks inside a pass of the loop, so every score of the run, the last included, was over the bound
    ensures outcome.BlocksForever? ==> OverBound(scores, iterations + 1, bound)
    ensures !AboveBound(scores[0] as real, bound) ==>
      outcome == Returned(ChosenPlacement(market, solver, prices)) && iterations == 0
  {
    var q := new BundleQueue();
    var tabu: seq<CourseBundle> := [];
    var curr := NewCourseBundle(market, solver, prices);
    var bestNode := curr;
    var bestScore := ScoreOf(bestNode);
    var counter := 0;
    assert Explored(market, solver, curr);
    selected, scores, origin := [curr], [bestScore], [0];
    expanded := [];
    best := 0;

    while AboveBound(bestScore as real, bound)
      invariant SearchState(market, solver, prices, bound, q, counter, curr, tabu, bestNode, bestScore,
                            selected, scores, expanded, origin, best)
      decreases MaxIterations - counter
    {
      if counter == MaxIterations {
        break;
      }
      OverBoundExtend(scores, counter, best, bound);
      var blocked;
      blocked, curr, tabu, bestNode, bestScore, selected, scores, expanded, origin, best :=
        SearchStep(market, solver, prices, bound, q, counter, curr, tabu, bestNode, bestScore,
                   selected, scores, expanded, origin, best);
      if blocked {
        outcome, iterations := BlocksForever, counter;
        return;
      }
      counter := counter + 1;
    }
    outcome, iterations := Returned(bestNode.placement), counter;
  }
}
