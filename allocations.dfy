/**
 * `Allocation`: the immutable record an item-allocation algorithm returns,
 * agents with their bundles and values, and its text forms. Agents, items
 * and values are integers here, printed the way Python's `str` prints them.
 */
module Allocations {
  import opened Wrappers
  import opened Decimal

  /** A bundle is a list of items, or `None` for an agent that gets nothing. */
  type Bundle = Option<seq<int>>

  datatype Allocation = Allocation(agents: seq<int>, bundles: seq<Bundle>, values: seq<int>, numOfAgents: nat)
  {
    /** What the constructor guarantees: one bundle and one value per agent. */
    predicate Valid() {
      |agents| == numOfAgents && |bundles| == numOfAgents && |values| == numOfAgents
    }
  }

  const MismatchPrefix: string := "Numbers of agents, bundles and values must be identical, but they are not: "

  /**
   * The `ValueError` text as the source writes it: the string lacks the `f`
   * prefix, so the placeholders are printed literally and the lengths are lost.
   */
  function MismatchMessageAsWritten(agents: nat, bundles: nat, values: nat): (m: string)
    ensures |m| > |MismatchPrefix| && m[..|MismatchPrefix|] == MismatchPrefix
  {
    MismatchPrefix + "{len(agents)}, {len(bundles)}, {len(values)}"
  }

  /** The `ValueError` text as evidently intended: the three lengths, comma separated. */
  function MismatchMessage(agents: nat, bundles: nat, values: nat): (m: string)
    ensures |m| > |MismatchPrefix| && m[..|MismatchPrefix|] == MismatchPrefix
  {
    MismatchPrefix + Lengths(agents, bundles, values)
  }

  /** `{len(agents)}, {len(bundles)}, {len(values)}` once interpolated. */
  function Lengths(agents: nat, bundles: nat, values: nat): (s: string)
    ensures |s| >= 7
  {
    NatToString(agents) + ", " + (NatToString(bundles) + ", " + NatToString(values))
  }

  lemma PrefixCancel(p: string, x: string, y: string)
    requires p + x == p + y
    ensures x == y
  {
    assert x == (p + x)[|p|..];
  }

  /** As written, the message is the same whatever the three lengths are. */
  lemma MismatchAsWrittenIgnoresLengths(a: nat, b: nat, c: nat, a': nat, b': nat, c': nat)
    ensures MismatchMessageAsWritten(a, b, c) == MismatchMessageAsWritten(a', b', c')
  {
  }

  /** As written, the message cannot tell one mismatch from another. */
  lemma MismatchAsWrittenLosesLengths()
    ensures MismatchMessageAsWritten(1, 2, 2) == MismatchMessageAsWritten(1, 1, 2)
    ensures MismatchMessage(1, 2, 2) != MismatchMessage(1, 1, 2)
  {
    MismatchMessageInjective(1, 2, 2, 1, 1, 2);
  }

  /** The intended message names the lengths: distinct lengths, distinct messages. */
  lemma MismatchMessageInjective(a: nat, b: nat, c: nat, a': nat, b': nat, c': nat)
    ensures MismatchMessage(a, b, c) == MismatchMessage(a', b', c') <==> a == a' && b == b' && c == c'
  {
    if MismatchMessage(a, b, c) == MismatchMessage(a', b', c') {
      PrefixCancel(MismatchPrefix, Lengths(a, b, c), Lengths(a', b', c'));
      NumeralFree(a);
      NumeralFree(a');
      SplitAtSeparator(NatToString(a), NatToString(a'), ", ",
                       NatToString(b) + ", " + NatToString(c), NatToString(b') + ", " + NatToString(c'));
      NumeralFree(b);
      NumeralFree(b');
      SplitAtSeparator(NatToString(b), NatToString(b'), ", ", NatToString(c), NatToString(c'));
      NatToStringInjective(a, a');
      NatToStringInjective(b, b');
      NatToStringInjective(c, c');
    }
  }

  /** `c` does not occur in `s`. */
  predicate Free(s: string, c: char) {
    forall i | 0 <= i < |s| :: s[i] != c
  }

  lemma NumeralFree(n: nat)
    ensures Free(NatToString(n), ',')
  {
  }

  lemma SeparatorAfter(x: string, sep: string, rest: string)
    ensures |sep| >= 1 ==> (x + sep + rest)[|x|] == sep[0]
  {
  }

  /**
   * A separator whose first character occurs in neither leading part splits
   * the string in one way only.
   */
  lemma SplitAtSeparator(x: string, y: string, sep: string, r: string, t: string)
    requires |sep| >= 1 && Free(x, sep[0]) && Free(y, sep[0])
    requires x + sep + r == y + sep + t
    ensures x == y && r == t
  {
    var s := x + sep + r;
    if |x| < |y| {
      // `sep[0]` would sit inside `y`
      SeparatorAfter(x, sep, r);
    } else if |y| < |x| {
      SeparatorAfter(y, sep, t);
    }
    assert x == s[..|x|] == y;
    assert r == s[|x| + |sep|..] == t;
  }

  /**
   * `Allocation(agents, bundles, values)`: a `ValueError` unless there are
   * as many bundles and values as agents.
   */
  function NewAllocation(agents: seq<int>, bundles: seq<Bundle>, values: seq<int>): (r: Result<Allocation, string>)
    ensures r.Success? <==> |agents| == |bundles| == |values|
    ensures r.Success? ==>
      r.value.Valid() && r.value.agents == agents && r.value.bundles == bundles && r.value.values == values
    ensures r.Failure? ==> r.error == MismatchMessage(|agents|, |bundles|, |values|)
  {
    var n := |agents|;
    if n != |bundles| || n != |values| then
      Failure(MismatchMessage(|agents|, |bundles|, |values|))
    else
      Success(Allocation(agents, bundles, values, n))
  }

  /** The `IndexError` text of a Python list. */
  const IndexOutOfRange: string := "list index out of range"

  /**
   * `get_bundle(agent_index)`, and `a[agent_index]`, which calls it: Python
   * list indexing, where `-1` is the last agent and an index outside
   * `-n .. n-1` raises `IndexError`.
   */
  function GetBundle(a: Allocation, index: int): (r: Result<Bundle, string>)
    ensures r.Success? <==> -|a.bundles| <= index < |a.bundles|
    ensures r.Success? ==> r.value in a.bundles
    ensures 0 <= index < |a.bundles| ==> r == Success(a.bundles[index])
    ensures r.Failure? ==> r.error == IndexOutOfRange
  {
    var n := |a.bundles|;
    if index < -n || n <= index then Failure(IndexOutOfRange)
    else if index < 0 then Success(a.bundles[index + n])
    else Success(a.bundles[index])
  }

  /** A negative index counts from the end: `a[k - n]` is `a[k]`. */
  lemma NegativeIndexAlias(a: Allocation, k: nat)
    requires k < |a.bundles|
    ensures GetBundle(a, k - |a.bundles|) == GetBundle(a, k)
  {
  }

  // ---- `sorted(bundle)` ----

  predicate Sorted(s: seq<int>) {
    forall i, j | 0 <= i < j < |s| :: s[i] <= s[j]
  }

  /** Puts `x` in front of the first element of `s` that is not below it. */
  function Insert(x: int, s: seq<int>): seq<int> {
    if s == [] then [x]
    else if x <= s[0] then [x] + s
    else [s[0]] + Insert(x, s[1..])
  }

  /** Inserting into a sorted sequence keeps it sorted and adds `x` to its items. */
  lemma {:induction false} InsertSpec(x: int, s: seq<int>)
    requires Sorted(s)
    ensures |Insert(x, s)| == |s| + 1
    ensures Sorted(Insert(x, s)) && multiset(Insert(x, s)) == multiset(s) + multiset{x}
    ensures Insert(x, s)[0] == x || (s != [] && Insert(x, s)[0] == s[0])
    decreases |s|
  {
    if s != [] && s[0] < x {
      InsertSpec(x, s[1..]);
      MultisetHeadTail(s);
      var rest := Insert(x, s[1..]);
      assert s[0] <= rest[0];
    }
  }

  lemma MultisetHeadTail(s: seq<int>)
    requires s != []
    ensures multiset(s) == multiset{s[0]} + multiset(s[1..])
  {
    assert s == [s[0]] + s[1..];
  }

  lemma MultisetInitLast(s: seq<int>)
    requires s != []
    ensures multiset(s) == multiset(s[..|s| - 1]) + multiset{s[|s| - 1]}
  {
    assert s == s[..|s| - 1] + [s[|s| - 1]];
  }

  /** `sorted(items)`, by insertion. */
  function SortItems(s: seq<int>): seq<int> {
    if s == [] then [] else Insert(s[|s| - 1], SortItems(s[..|s| - 1]))
  }

  /** `sorted` returns the items in ascending order, each as often as given. */
  lemma {:induction false} SortItemsSpec(s: seq<int>)
    ensures Sorted(SortItems(s)) && multiset(SortItems(s)) == multiset(s)
    decreases |s|
  {
    if s != [] {
      SortItemsSpec(s[..|s| - 1]);
      InsertSpec(s[|s| - 1], SortItems(s[..|s| - 1]));
      MultisetInitLast(s);
    }
  }

  /** The head of a sorted sequence is its least element. */
  lemma SortedHeadLeast(s: seq<int>, x: int)
    requires Sorted(s) && x in multiset(s)
    ensures s[0] <= x
  {
    assert x in s;
  }

  lemma CancelSingleton(x: int, m1: multiset<int>, m2: multiset<int>)
    requires multiset{x} + m1 == multiset{x} + m2
    ensures m1 == m2
  {
    forall y
      ensures m1[y] == m2[y]
    {
      assert (multiset{x} + m1)[y] == (multiset{x} + m2)[y];
    }
  }

  /** There is one sorted order of a multiset of items. */
  lemma {:induction false} SortedUnique(a: seq<int>, b: seq<int>)
    requires Sorted(a) && Sorted(b) && multiset(a) == multiset(b)
    ensures a == b
    decreases |a|
  {
    if a != [] {
      assert a[0] in multiset(b);
      SortedHeadLeast(b, a[0]);
      assert b[0] in multiset(a);
      SortedHeadLeast(a, b[0]);
      MultisetHeadTail(a);
      MultisetHeadTail(b);
      CancelSingleton(a[0], multiset(a[1..]), multiset(b[1..]));
      assert Sorted(a[1..]) && Sorted(b[1..]);
      SortedUnique(a[1..], b[1..]);
    }
  }

  // ---- `stringify_bundle` ----

  /** `",".join(parts)`. */
  function Join(parts: seq<string>): string {
    if parts == [] then ""
    else if |parts| == 1 then parts[0]
    else parts[0] + "," + Join(parts[1..])
  }

  /** `map(str, items)`. */
  function Numerals(items: seq<int>): seq<string> {
    seq(|items|, i requires 0 <= i < |items| => IntToString(items[i]))
  }

  /** `stringify_bundle(bundle)`: `None`, or the sorted items in braces, comma separated. */
  function Stringify(bundle: Bundle): (s: string)
    ensures bundle.None? <==> s == "None"
    ensures bundle.Some? ==> |s| >= 2 && s[0] == '{' && s[|s| - 1] == '}'
  {
    match bundle
    case None => "None"
    case Some(items) =>
      var s := "{" + Join(Numerals(SortItems(items))) + "}";
      assert s[0] != "None"[0];
      s
  }

  /** The doctests of `stringify_bundle` on a list and on `None`, and the empty bundle. */
  lemma StringifyExamples()
    ensures Stringify(Some([2, 1])) == "{1,2}"
    ensures Stringify(None) == "None"
    ensures Stringify(Some([])) == "{}"
  {
    assert SortItems([2]) == [2];
    assert SortItems([2, 1]) == [1, 2];
    assert Numerals([1, 2]) == ["1", "2"];
  }

  /** The order in which a bundle lists its items does not show in its text. */
  lemma StringifyPermutationInvariant(b1: seq<int>, b2: seq<int>)
    requires multiset(b1) == multiset(b2)
    ensures Stringify(Some(b1)) == Stringify(Some(b2))
  {
    SortItemsSpec(b1);
    SortItemsSpec(b2);
    SortedUnique(SortItems(b1), SortItems(b2));
  }

  /** Non-empty, comma-free parts. */
  predicate PlainParts(parts: seq<string>) {
    forall i | 0 <= i < |parts| :: |parts[i]| >= 1 && Free(parts[i], ',')
  }

  /** Joining plain parts loses nothing: the parts can be read back. */
  lemma {:induction false} JoinInjective(xs: seq<string>, ys: seq<string>)
    requires PlainParts(xs) && PlainParts(ys) && Join(xs) == Join(ys)
    ensures xs == ys
    decreases |xs|
  {
    if xs == [] || ys == [] {
      if xs != [] {
        JoinNonEmpty(xs);
      } else if ys != [] {
        JoinNonEmpty(ys);
      }
    } else if |xs| == 1 && |ys| == 1 {
    } else if |xs| == 1 {
      // the one part of `xs` would hold the comma after `ys[0]`
      SeparatorAfter(ys[0], ",", Join(ys[1..]));
    } else if |ys| == 1 {
      SeparatorAfter(xs[0], ",", Join(xs[1..]));
    } else {
      SplitAtSeparator(xs[0], ys[0], ",", Join(xs[1..]), Join(ys[1..]));
      JoinInjective(xs[1..], ys[1..]);
      assert xs == [xs[0]] + xs[1..] && ys == [ys[0]] + ys[1..];
    }
  }

  lemma JoinNonEmpty(parts: seq<string>)
    requires parts != [] && PlainParts(parts)
    ensures Join(parts) != ""
  {
  }

  lemma NumeralsPlain(items: seq<int>)
    ensures PlainParts(Numerals(items))
  {
    forall i | 0 <= i < |items|
      ensures Free(IntToString(items[i]), ',')
    {
      IntToStringPlain(items[i]);
    }
  }

  lemma NumeralsInjective(s: seq<int>, t: seq<int>)
    requires Numerals(s) == Numerals(t)
    ensures s == t
  {
    assert |s| == |Numerals(s)| == |t|;
    forall i | 0 <= i < |s|
      ensures s[i] == t[i]
    {
      assert Numerals(s)[i] == IntToString(s[i]) && Numerals(t)[i] == IntToString(t[i]);
      IntToStringInjective(s[i], t[i]);
    }
  }

  /**
   * Two bundles print alike exactly when both are `None`, or both hold the
   * same items the same number of times.
   */
  lemma StringifyExactly(b1: Bundle, b2: Bundle)
    ensures Stringify(b1) == Stringify(b2) <==>
      (b1.None? && b2.None?) || (b1.Some? && b2.Some? && multiset(b1.value) == multiset(b2.value))
  {
    if b1.Some? && b2.Some? {
      if multiset(b1.value) == multiset(b2.value) {
        StringifyPermutationInvariant(b1.value, b2.value);
      }
      var s1, s2 := Stringify(b1), Stringify(b2);
      var j1, j2 := Join(Numerals(SortItems(b1.value))), Join(Numerals(SortItems(b2.value)));
      if s1 == s2 {
        assert j1 == s1[1..|s1| - 1] && j2 == s2[1..|s2| - 1];
        NumeralsPlain(SortItems(b1.value));
        NumeralsPlain(SortItems(b2.value));
        JoinInjective(Numerals(SortItems(b1.value)), Numerals(SortItems(b2.value)));
        NumeralsInjective(SortItems(b1.value), SortItems(b2.value));
        SortItemsSpec(b1.value);
        SortItemsSpec(b2.value);
      }
    } else if b1.Some? || b2.Some? {
      assert Stringify(b1)[0] != Stringify(b2)[0];
    }
  }

  // ---- `__repr__` ----

  /** One line of `repr`: agent, bundle and value of one agent. */
  function Line(agent: int, bundle: Bundle, value: int): (s: string)
    ensures |s| > |IntToString(agent)| + 2
    ensures s[..|IntToString(agent)|] == IntToString(agent) && s[|s| - 2..] == ".\n"
  {
    IntToString(agent) + "'s bundle: " + Stringify(bundle) + ",  value: " + IntToString(value) + ".\n"
  }

  /** The lines of the first `n` agents, in order. */
  function ReprText(a: Allocation, n: nat): (s: string)
    requires a.Valid() && n <= a.numOfAgents
  {
    if n == 0 then "" else ReprText(a, n - 1) + Line(a.agents[n - 1], a.bundles[n - 1], a.values[n - 1])
  }

  lemma ReprTextStep(a: Allocation, i: nat, line: string)
    requires a.Valid() && i < a.numOfAgents && line == Line(a.agents[i], a.bundles[i], a.values[i])
    ensures ReprText(a, i + 1) == ReprText(a, i) + line
  {
  }

  /** `repr(allocation)`: one line per agent. */
  method Repr(a: Allocation) returns (result: string)
    requires a.Valid()
    ensures result == ReprText(a, a.numOfAgents)
  {
    result := "";
    var i := 0;
    while i < a.numOfAgents
      invariant 0 <= i <= a.numOfAgents
      invariant result == ReprText(a, i)
    {
      result := AppendLine(a, i, result);
      i := i + 1;
    }
    assert i == a.numOfAgents;
  }

  /** `result += f"..."` for agent `i`: the text grows by that agent's line. */
  method AppendLine(a: Allocation, i: nat, result: string) returns (extended: string)
    requires a.Valid() && i < a.numOfAgents && result == ReprText(a, i)
    ensures extended == ReprText(a, i + 1)
  {
    var line := Line(a.agents[i], a.bundles[i], a.values[i]);
    ReprTextStep(a, i, line);
    extended := result + line;
  }

  /** The number of line breaks in `s`. */
  function CountNewlines(s: string): (n: nat)
    ensures n <= |s|
  {
    if s == [] then 0 else (if s[0] == '\n' then 1 else 0) + CountNewlines(s[1..])
  }

  lemma {:induction false} CountNewlinesAppend(s: string, t: string)
    ensures CountNewlines(s + t) == CountNewlines(s) + CountNewlines(t)
    decreases |s|
  {
    if s == [] {
      assert s + t == t;
    } else {
      assert (s + t)[1..] == s[1..] + t;
      CountNewlinesAppend(s[1..], t);
    }
  }

  lemma {:induction false} FreeHasNoNewlines(s: string)
    requires Free(s, '\n')
    ensures CountNewlines(s) == 0
    decreases |s|
  {
    if s != [] {
      FreeHasNoNewlines(s[1..]);
    }
  }

  lemma {:induction false} JoinFree(parts: seq<string>, c: char)
    requires c != ',' && forall i | 0 <= i < |parts| :: Free(parts[i], c)
    ensures Free(Join(parts), c)
    decreases |parts|
  {
    if |parts| > 1 {
      JoinFree(parts[1..], c);
    }
  }

  lemma StringifyHasNoNewlines(bundle: Bundle)
    ensures Free(Stringify(bundle), '\n')
  {
    if bundle.Some? {
      var parts := Numerals(SortItems(bundle.value));
      forall i | 0 <= i < |parts|
        ensures Free(parts[i], '\n')
      {
        IntToStringPlain(SortItems(bundle.value)[i]);
      }
      JoinFree(parts, '\n');
    }
  }

  /** The fixed text of a line holds one line break, at its end. */
  lemma BundleLabelNewlines()
    ensures CountNewlines("'s bundle: ") == 0
  {
    FreeHasNoNewlines("'s bundle: ");
  }

  lemma ValueLabelNewlines()
    ensures CountNewlines(",  value: ") == 0
  {
    FreeHasNoNewlines(",  value: ");
  }

  lemma LineEndNewlines()
    ensures CountNewlines(".\n") == 1
  {
  }

  /** Each line holds exactly one line break, at its end. */
  lemma LineHasOneNewline(agent: int, bundle: Bundle, value: int)
    ensures CountNewlines(Line(agent, bundle, value)) == 1
  {
    var who, items, worth := IntToString(agent), Stringify(bundle), IntToString(value);
    IntToStringPlain(agent);
    IntToStringPlain(value);
    StringifyHasNoNewlines(bundle);
    FreeHasNoNewlines(who);
    FreeHasNoNewlines(items);
    FreeHasNoNewlines(worth);
    BundleLabelNewlines();
    ValueLabelNewlines();
    LineEndNewlines();
    var s1 := who + "'s bundle: ";
    CountNewlinesAppend(who, "'s bundle: ");
    var s2 := s1 + items;
    CountNewlinesAppend(s1, items);
    var s3 := s2 + ",  value: ";
    CountNewlinesAppend(s2, ",  value: ");
    var s4 := s3 + worth;
    CountNewlinesAppend(s3, worth);
    CountNewlinesAppend(s4, ".\n");
  }

  /** `repr` has one line per agent. */
  lemma {:induction false} ReprLineCount(a: Allocation, n: nat)
    requires a.Valid() && n <= a.numOfAgents
    ensures CountNewlines(ReprText(a, n)) == n
    decreases n
  {
    if n > 0 {
      ReprLineCount(a, n - 1);
      LineHasOneNewline(a.agents[n - 1], a.bundles[n - 1], a.values[n - 1]);
      CountNewlinesAppend(ReprText(a, n - 1), Line(a.agents[n - 1], a.bundles[n - 1], a.values[n - 1]));
    }
  }
}
