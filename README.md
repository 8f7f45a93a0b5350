# Tabu-search course allocation and the `Allocation` record, in Dafny

This project models two parts of the fairpy repository and proves
properties of them.

The first part is the approximate-competitive-equilibrium course allocator of
`fairpy/items/fair_course_allocation_implementation.py` (Othman, Sandholm
and Budish). Students with budgets pick the most valuable bundle of courses
they can afford at the current prices. A course whose demand exceeds its
capacity is oversubscribed, and `score` measures the total excess demand.
`neighbors` proposes new price vectors: first the gradient of excess demand,
then one vector per oversubscribed course with only that course's price
raised by `pi`. `pi` is the smallest rise at which some holder of the course
would rather drop it. `course_allocation` runs a tabu search over price
vectors. It keeps a priority queue of `Course_Bundle`s ordered by score and
a tabu list of expanded bundles compared by price vector. It keeps the
strictly best bundle seen, and it stops once that bundle's score is within
`bound` or after 100 expansions.

The second part is the display-side `Allocation` record of `allocations.py`.
It covers the length check of its constructor, Python list indexing in
`get_bundle`/`__getitem__`, `stringify_bundle`, and the line-per-agent
`__repr__`.

Files and modules:

- `wrappers.dfy` (`Wrappers`): `Option` and `Result`.
- `demand.dfy` (`Demand`): column sums of a placement and the squared score.
- `course_market.dfy` (`CourseMarket`) holds:
  - the market data
  - the integer programs as oracles of a `Solver`
  - `max_utilities`
  - `Course_Bundle`
- `neighbors.dfy` (`Neighbors`): the gradient and price neighbours.
- `tabu_search.dfy` (`TabuSearch`) holds:
  - the priority queue, as a class
  - the tabu loop of `course_allocation`
- `decimal.dfy` (`Decimal`): Python's `str` on integers.
- `allocations.py` is modelled in `allocations.dfy` (`Allocations`).

The allocator's code changes state step by step. Each of its loops is
therefore a method with loop invariants, proved against a specification
function:
- `score` against `SquaredExcess`
- the gradient against `Gradient`
- the `pi` scan against `MinRise`
- the course loop against `RaisedPrices`
- `max_utilities` against `ChosenPlacement`
- `__repr__` against `ReprText`

The priority queue is a class whose `items` field `put` and `get` update.
`course_allocation` is a method whose loop invariant records the whole run
in ghost variables:
- the bundles selected
- their scores
- the neighbour list expanded from each
- which earlier list proposed each selected bundle
- the position of the best one

## Model

| member | source | states |
|---|---|---|
| Demand.Score | fairpy/items/fair_course_allocation_implementation.py:216-242 | The accumulated `ans` is the sum over oversubscribed courses of the squared excess of demand over capacity. It is 0 exactly when every course is within capacity. |
| Demand.ScoreZeroIff | fairpy/items/fair_course_allocation_implementation.py:236-242 | The squared score is 0 if and only if no column sum exceeds its capacity. |
| Demand.ScoreBoundsEachExcess | fairpy/items/fair_course_allocation_implementation.py:238-240 | Every oversubscribed course's squared excess is at most the whole score. |
| Demand.UnderfilledIrrelevant | fairpy/items/fair_course_allocation_implementation.py:239-240 | Demand vectors that differ only at courses within capacity have equal scores. |
| Demand.ScoreMonotone | fairpy/items/fair_course_allocation_implementation.py:238-240 | Raising any course's demand never lowers the score. |
| Demand.RootComparisons | fairpy/items/fair_course_allocation_implementation.py:242 | On non-negative roots, `<` agrees with `<` on the squares. `sqrt(S) > bound` agrees with `AboveBound(S, bound)`. So every score comparison may be made on squared scores. |
| Demand.ScoreExample | fairpy/items/fair_course_allocation_implementation.py:225-227 | Three students holding courses 1 and 2 give column sums 0,3,3,0. Against capacity 1 each the squared score is 8. The source reports its root, about 2.83. |
| CourseMarket.MaxUtilities | fairpy/items/fair_course_allocation_implementation.py:283-316 | Row s of the result is the solver's `max_utility` bundle for student s at the given prices, in student order. Together the rows are the market's chosen placement. |
| CourseMarket.ChosenPlacement | fairpy/items/fair_course_allocation_implementation.py:245-253 | One 0/1 row per student, each with one entry per course. |
| CourseMarket.NewCourseBundle | fairpy/items/fair_course_allocation_implementation.py:342-349 | The bundle keeps the market and the prices. Its placement is the one `max_utilities` computes at those prices. |
| CourseMarket.ScoreOf | fairpy/items/fair_course_allocation_implementation.py:351-352 | `Course_Bundle.score` is the squared score of the bundle's demand. It is 0 exactly when the bundle's demand is within capacity. |
| CourseMarket.CourseBundle.Less | fairpy/items/fair_course_allocation_implementation.py:357-358 | `__lt__` compares scores. A bundle that some other bundle is `<` has demand over capacity somewhere: a bundle within capacity is never beaten. |
| CourseMarket.CourseBundle.Equals | fairpy/items/fair_course_allocation_implementation.py:360-361 | `__eq__` holds if and only if the two price vectors have the same length and agree entry by entry. |
| CourseMarket.EqualBundlesAreUnordered | fairpy/items/fair_course_allocation_implementation.py:357-361 | Bundles that are `==` (same prices) have the same placement, so neither is `<` the other. `<` is irreflexive and transitive. |
| Neighbors.Gradient | fairpy/items/fair_course_allocation_implementation.py:160-167 | Entry c is positive exactly when course c is oversubscribed. At a priced course it is demand minus capacity. At a free course it is the excess, never negative. |
| Neighbors.GradientNeighbor | fairpy/items/fair_course_allocation_implementation.py:160-167 | The loop builds the gradient, entry by entry, as the first candidate price vector. |
| Neighbors.MinRiseIsMinimum | fairpy/items/fair_course_allocation_implementation.py:177-207 | `pi` stays `math.inf` exactly while no scanned student holds the course. Otherwise it equals the rise `budget − O2 + Epsilon` of a holder and is at most every holder's rise. |
| Neighbors.PiIsFinite | fairpy/items/fair_course_allocation_implementation.py:175-177 | An oversubscribed course has a holder, so its `pi` is finite after the scan. |
| Neighbors.PiIsLeastRise | fairpy/items/fair_course_allocation_implementation.py:177-207 | The `pi` of an oversubscribed course is the least rise over its holders, and some holder attains it. |
| Neighbors.Raise | fairpy/items/fair_course_allocation_implementation.py:209-211 | The new prices are as long as the old. Course c's price rises by exactly its `pi`, and every other price is unchanged. |
| Neighbors.PriceNeighbor | fairpy/items/fair_course_allocation_implementation.py:177-210 | The `pi` scan followed by `new_prices[course] = prices[course] + pi` gives the prices with only this course raised by its `pi`. |
| Neighbors.OverfullCoursesExactly | fairpy/items/fair_course_allocation_implementation.py:173-175 | The course loop meets every oversubscribed course exactly once, in increasing order, and no other course. |
| Neighbors.RaisedPricesEach | fairpy/items/fair_course_allocation_implementation.py:173-211 | There is one price neighbour per oversubscribed course. The j-th is the prices raised at the j-th oversubscribed course. |
| Neighbors.PriceNeighbors | fairpy/items/fair_course_allocation_implementation.py:169-211 | The course loop returns exactly those price neighbours, in increasing course order. |
| Neighbors.Neighbors | fairpy/items/fair_course_allocation_implementation.py:130-213 | Its placement is the students' choice at the prices. The list holds 1 + (number of oversubscribed courses) vectors: the gradient first, then each course's raised prices in course order. Every vector is as long as the prices. |
| Neighbors.OnlyGradientWhenWithinCapacity | fairpy/items/fair_course_allocation_implementation.py:173-175 | There is no price neighbour if and only if every course is within capacity. Then the list is the gradient alone. |
| TabuSearch.InTabu | fairpy/items/fair_course_allocation_implementation.py:118 | A bundle on the tabu list is found there. Nothing is found on an empty list. |
| TabuSearch.BundleQueue.constructor | fairpy/items/fair_course_allocation_implementation.py:100 | The queue starts empty. |
| TabuSearch.BundleQueue.Put | fairpy/items/fair_course_allocation_implementation.py:115 | `q.put(b)` adds `b` to the queued bundles. |
| TabuSearch.BundleQueue.Get | fairpy/items/fair_course_allocation_implementation.py:117 | `q.get()` on a non-empty queue removes one occurrence of a queued bundle. No queued bundle has a smaller score (`__lt__`, lines 357-358). The rest stay queued. |
| TabuSearch.PushNeighbors | fairpy/items/fair_course_allocation_implementation.py:114-115 | Queues one evaluated bundle per neighbour vector, in list order, the gradient included. |
| TabuSearch.NextOutsideTabu | fairpy/items/fair_course_allocation_implementation.py:117-119 | Returns the first dequeued bundle not `==` to a tabu bundle, and nothing else queued scores less. Every bundle dropped on the way is tabu. If the queue runs dry first, `None` is returned: the `get` that blocks. |
| TabuSearch.Expand | fairpy/items/fair_course_allocation_implementation.py:114-119 | Queues the neighbours of `curr_node`, then takes the next non-tabu bundle. That bundle belongs to the run and was proposed by some neighbour list. It scores no more than any bundle left queued. Every proposal stays queued or selected. |
| TabuSearch.PushAndTake | fairpy/items/fair_course_allocation_implementation.py:114-119 | Every bundle left in the queue, and the one taken, was proposed by a neighbour list expanded so far. The bundle taken is not tabu and scores no more than any bundle left queued. Every proposed price vector is still queued or has been selected. |
| TabuSearch.TakeNext | fairpy/items/fair_course_allocation_implementation.py:117-119 | The bundle taken was proposed by some list, is not tabu, and scores no more than any bundle left queued. Each proposal stays queued or selected, the taken bundle counting as selected. If the queue runs dry, every proposal has been selected. |
| TabuSearch.CoveredPush | fairpy/items/fair_course_allocation_implementation.py:114-115 | Queuing one bundle per entry of a new neighbour list keeps every proposal, old and new, queued or selected. |
| TabuSearch.CoveredTake | fairpy/items/fair_course_allocation_implementation.py:117-119 | Dropping tabu bundles and taking the next one keeps every proposal queued or selected. |
| TabuSearch.AfterTake | fairpy/items/fair_course_allocation_implementation.py:117-119 | After dropping tabu bundles and taking at most one, the rest of the queue was proposed, the bundle taken was proposed by some list, and every proposal stays queued or selected. |
| TabuSearch.LeastPending | fairpy/items/fair_course_allocation_implementation.py:117-121 | A bundle scoring no more than anything queued scores no more than any proposal not yet selected. |
| TabuSearch.BestFirstAppend | fairpy/items/fair_course_allocation_implementation.py:113-121 | Selecting such a bundle extends the best-first order of the run: each selected bundle scores no more than every earlier proposal still unselected when it was taken. |
| TabuSearch.PricesDistinctAppend | fairpy/items/fair_course_allocation_implementation.py:113-119 | A bundle not `==` to any tabu bundle keeps the selected price vectors pairwise distinct. |
| TabuSearch.FirstMinimumAppend | fairpy/items/fair_course_allocation_implementation.py:121-123 | `best_node` moves to the new bundle only on a strictly smaller score. It stays the first least-scored bundle of the run. |
| TabuSearch.OverBoundExtend | fairpy/items/fair_course_allocation_implementation.py:108-119 | While the loop condition holds, the least score so far is over `bound`, so the current bundle's score is over it as well. |
| TabuSearch.HistoryAppend | fairpy/items/fair_course_allocation_implementation.py:113-125 | One iteration extends the recorded run: the new bundle is scored, distinct in prices and proposed by an earlier list. The best bundle is updated only on strict improvement. All earlier scores are over the bound. |
| TabuSearch.SearchStep | fairpy/items/fair_course_allocation_implementation.py:113-125 | One pass of the loop body keeps the loop invariant, best-first order included, and the new `curr_node` scores no more than any bundle still queued. Alternatively it reports that `q.get()` would block, with the run recorded so far and every proposed price vector already selected. |
| TabuSearch.CourseAllocation | fairpy/items/fair_course_allocation_implementation.py:67-127 | At most 100 iterations. The run starts at the bundle of the given prices. Selected price vectors are pairwise distinct, and each later bundle is in the neighbour list of an earlier one. Every expanded bundle's best score was over `bound`. The returned placement is that of the first least-scored bundle, so it scores no more than the initial one. Below 100 iterations that score is within `bound`. If the initial score is within `bound`, the initial placement is returned with no iteration. The queue hands out bundles best first: each bundle selected after the first scores no more than every price vector proposed earlier and not selected by then. A queue that runs dry is reported as blocking. It runs dry only after every proposed price vector has been selected, and only while every score of the run, the last bundle's included, is over `bound`. |
| Allocations.NewAllocation | allocations.py:34-44 | Succeeds if and only if `agents`, `bundles` and `values` have equal lengths. It then keeps all three and `num_of_agents == len(agents)`. Otherwise it fails with the length-mismatch message, in its corrected form (see ## Findings). |
| Allocations.MismatchMessageAsWritten | allocations.py:40 | The message as the source writes it starts with the fixed prefix. |
| Allocations.MismatchAsWrittenIgnoresLengths | allocations.py:40 | As written, the message is the same for every triple of lengths. |
| Allocations.MismatchMessage | allocations.py:40 | The intended message starts with the same fixed prefix, followed by the lengths. |
| Allocations.MismatchAsWrittenLosesLengths | allocations.py:40 | As written, the lengths 1,2,2 and 1,1,2 give the same message. The corrected messages differ. |
| Allocations.MismatchMessageInjective | allocations.py:40 | The corrected messages of two length triples are equal if and only if the triples are. |
| Allocations.GetBundle | allocations.py:46-50 | `a[i]` and `get_bundle(i)` succeed if and only if `-n <= i < n`, with a bundle of the allocation. For `0 <= i < n` the result is `bundles[i]`. Otherwise the error is `IndexError`'s text. |
| Allocations.NegativeIndexAlias | allocations.py:46-47 | `a[k - n]` is `a[k]`. |
| Allocations.InsertSpec | allocations.py:78 | Inserting into a sorted list keeps it sorted and adds exactly the one item. |
| Allocations.SortItemsSpec | allocations.py:78 | `sorted(bundle)` is ascending and a permutation of the bundle. |
| Allocations.SortedUnique | allocations.py:78 | Two sorted permutations of the same items are equal. |
| Allocations.Stringify | allocations.py:61-78 | The text is `None` exactly for a `None` bundle. Otherwise it is enclosed in braces. |
| Allocations.StringifyExamples | allocations.py:70-76 | `[2,1]` gives `{1,2}`, `None` gives `None`, and the empty list gives `{}`. |
| Allocations.StringifyPermutationInvariant | allocations.py:66-71 | Bundles with the same items, in any order, print alike. |
| Allocations.JoinInjective | allocations.py:78 | `",".join` of non-empty, comma-free parts can be read back: equal joins have equal parts. |
| Allocations.StringifyExactly | allocations.py:61-78 | Two bundles print alike if and only if both are `None`, or both hold the same items equally often. |
| Allocations.StringifyHasNoNewlines | allocations.py:75-78 | A bundle's text holds no line break. |
| Allocations.Line | allocations.py:57 | Each agent's line starts with the agent's numeral and ends with `.` and a line break. |
| Allocations.LineHasOneNewline | allocations.py:57 | Each agent's line holds exactly one line break. |
| Allocations.AppendLine | allocations.py:57 | One `+=` extends the text of the first i agents to the first i + 1. |
| Allocations.Repr | allocations.py:52-58 | The loop builds, agent by agent in order, the concatenation of `"<agent>'s bundle: <stringify_bundle(bundle)>,  value: <value>.\n"`. |
| Allocations.ReprLineCount | allocations.py:52-58 | `repr` has exactly one line per agent. |
| Decimal.NatToString | allocations.py:78 | `str(n)` is a non-empty string of digits, with no leading zero unless it is `0`. |
| Decimal.NatRoundTrip | allocations.py:78 | Reading the digits of `str(n)` back gives `n`. |
| Decimal.IntRoundTrip | allocations.py:57 | Reading the sign and digits of `str(n)` back gives `n`, for negative `n` too. |
| Decimal.IntToStringInjective | allocations.py:78 | Distinct integers have distinct numerals. |

## Left out

- Demand.Score: returns the integer under the root, the sum of squared excesses, not `math.sqrt` of it. `Demand.RootComparisons` shows that every comparison the allocator makes on scores agrees with the comparison of these squares. The comparisons are `best_node.score() > bound`, `curr_node.score() < best_node.score()` and `__lt__`.
- CourseMarket.ScoreOf: returns the squared score, for the same reason.
- Floating point: prices, budgets, utilities and `Epsilon` are exact `real`s, so rounding artefacts such as `0.21000000000000002` do not arise.
- The cvxpy integer programs are oracles, the function fields of `CourseMarket.Solver`:
  - `max_utility`'s solve and its `astype(int)`
  - O1 and O2 in `neighbors`
  
  The model assumes `max_utility` answers with a 0/1 vector of one entry per course. A solver failure (`prob.value` of `None` or infinite) is not modelled.
- Capacities are seat counts (`nat`). With 0/1 placements an oversubscribed course therefore has a holder, and `pi = math.inf` never reaches `new_prices`. Negative capacities are not modelled.
- A market has at least one student. numpy's column sum of an empty placement is a scalar, which the source cannot enumerate.
- `general_course_allocation` is not modelled. It draws random prices and budgets, and passes `effect_variables` into the `bound` position.
- The unused `effect_variables` and `constraint` parameters are dropped.
- Logging and the `__main__` blocks are not modelled.
- TabuSearch.BundleQueue.Get: the model takes the first least-scored bundle in queue order. Python's heap may take another bundle among equal scores, so only "no queued bundle scores less" is promised.
- Allocations.NewAllocation: fails with the corrected message that names the three lengths (`Allocations.MismatchMessage`). It does not return the literal placeholder text that allocations.py:40 raises. That text is `Allocations.MismatchMessageAsWritten` (see ## Findings).
- Length mismatches in the allocator's inputs are excluded by `CourseMarket.Market.Valid` and by the requires `|prices| == market.Courses()`. The source fails on them instead:
  - budgets shorter than utilities: `IndexError` at fairpy/items/fair_course_allocation_implementation.py:313
  - budgets longer than utilities: `IndexError` at fairpy/items/fair_course_allocation_implementation.py:181-183, where `placement` has fewer rows than `budgets`
  - capacity shorter than the number of courses: `IndexError` at fairpy/items/fair_course_allocation_implementation.py:164, :175 and :239
  - prices of the wrong length: a shape error at fairpy/items/fair_course_allocation_implementation.py:275
- `q.get()` on an empty queue blocks for ever. `CourseAllocation` reports this as `Outcome.BlocksForever`.
- `Course_Bundle.neighbors` is `Neighbors.Neighbors` applied to the bundle's market and prices, inside `TabuSearch.Expand`. The input price list is a Dafny value, so its not being mutated holds by construction.
- Agents, items and values of an `Allocation` are integers printed as Python's `str` prints them. Strings, floats and other objects as agents, items or values are not modelled.
- A bundle is a list. A Python `set` bundle would differ only in having no repeated items.
- `__repr__` loops over `agents`. The model loops over `num_of_agents`, which the constructor makes equal to `len(agents)`.
- The `Allocation` doctest's full `repr` of three agents is not stated as a lemma. Evaluating it symbolically is too costly for the verifier. `Allocations.LineHasOneNewline`, `Allocations.StringifyExamples` and the definition of `ReprText` cover its parts.
- `divisible/min_sharing_impl/FairMaxProductAllocationProblem.py` is not part of this model. It relies on solvers and classes whose source is not available here.
- `fairpy/items/test_fair_course_allocation.py` is not part of this model. Its expected values depend on the solver.

## Findings

| source | as written | input that shows it | evidently intended | confidence | as-written member | corrected member |
|---|---|---|---|---|---|---|
| allocations.py:40 | The `ValueError` message is a plain string, not an f-string, so it prints `{len(agents)}, {len(bundles)}, {len(values)}` literally. | 1 agent, 2 bundles, 2 values and 1 agent, 1 bundle, 2 values raise the same text. | The message names the three lengths, e.g. `1, 2, 2`. | high (not executed) | Allocations.MismatchAsWrittenLosesLengths, Allocations.MismatchAsWrittenIgnoresLengths | Allocations.MismatchMessageInjective |

`Allocations.NewAllocation` uses the corrected message `Allocations.MismatchMessage`.
