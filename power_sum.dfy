/**
 * The power-sum enumerator of the visualiser: `ComputationEngine.compute_power_sums`
 * walks the unordered pairs 1 <= a <= b <= max_individual and groups every pair whose
 * power sum a^p + b^p stays within `max_sum` under that sum.
 *
 * The reference definition of the result is `Enumerate`: all qualifying pairs in
 * lexicographic order (`QualifyingPairs`), grouped by their sum (`GroupBySum`).
 * The engine's loops, with their two early exits, are proved to compute exactly it.
 */
module PowerSum {
  import opened Arith

  // ---------------------------------------------------------------------------
  // Powers
  // ---------------------------------------------------------------------------

  /** Python's `x ** p` for a non-negative integer exponent. */
  function Pow(x: int, p: nat): int
  {
    if p == 0 then 1 else x * Pow(x, p - 1)
  }

  /** Powers of positive integers are positive and monotone in the base. */
  lemma {:induction false} PowMonotone(x: int, y: int, p: nat)
    requires 1 <= x <= y
    ensures 1 <= Pow(x, p) <= Pow(y, p)
  {
    if p > 0 {
      PowMonotone(x, y, p - 1);
      var px, py := Pow(x, p - 1), Pow(y, p - 1);
      MulMonotone(y, x, px);
      MulMonotone(py, px, y);
      assert y * px == px * y && y * py == py * y;
      MulMonotone(x, 1, px);
    }
  }

  // ---------------------------------------------------------------------------
  // Data model
  // ---------------------------------------------------------------------------

  /** An unordered pair in canonical form `(a, b)`, as the source's tuples. */
  datatype Pair = Pair(a: int, b: int)

  function PairSum(q: Pair, power: nat): int
  {
    Pow(q.a, power) + Pow(q.b, power)
  }

  /** `ComputationResult` without its wall-clock `computation_time`. */
  datatype ComputationResult = ComputationResult(
    power: nat,
    maxNum: int,
    sumCombinations: map<int, seq<Pair>>)

  /** The signals the engine emits, in emission order. */
  datatype Event =
    | Progress(current: int, total: int)
    | Finished(result: ComputationResult)

  /** `(max_individual * (max_individual + 1)) // 2`. */
  function TotalPairs(m: nat): nat
  {
    m * (m + 1) / 2
  }

  // ---------------------------------------------------------------------------
  // Reference enumeration
  // ---------------------------------------------------------------------------

  /** Lexicographic order on pairs: `a` ascending, then `b` ascending. */
  predicate LexLess(p: Pair, q: Pair)
  {
    p.a < q.a || (p.a == q.a && p.b < q.b)
  }

  predicate StrictlySorted(s: seq<Pair>)
  {
    forall i, j :: 0 <= i < j < |s| ==> LexLess(s[i], s[j])
  }

  /** The qualifying pairs `(a, b')` with `b <= b' <= m`, `b'` ascending. */
  function RowFrom(power: nat, maxSum: int, m: int, a: int, b: int): seq<Pair>
    decreases m + 1 - b
  {
    if b > m then []
    else
      (if Pow(a, power) + Pow(b, power) <= maxSum then [Pair(a, b)] else [])
      + RowFrom(power, maxSum, m, a, b + 1)
  }

  /** The qualifying pairs whose first component is at least `a`, in lexicographic order. */
  function RowsFrom(power: nat, maxSum: int, m: int, a: int): seq<Pair>
    decreases m + 1 - a
  {
    if a > m then []
    else RowFrom(power, maxSum, m, a, a) + RowsFrom(power, maxSum, m, a + 1)
  }

  /** Every pair 1 <= a <= b <= m with a^p + b^p <= maxSum, in discovery order. */
  function QualifyingPairs(power: nat, maxSum: int, m: int): seq<Pair>
  {
    RowsFrom(power, maxSum, m, 1)
  }

  /** `sum_combinations[s].append(q)` for each pair in turn, starting from an empty `defaultdict(list)`. */
  function GroupBySum(power: nat, pairs: seq<Pair>): map<int, seq<Pair>>
  {
    if pairs == [] then map[]
    else
      var g := GroupBySum(power, pairs[..|pairs| - 1]);
      var q := pairs[|pairs| - 1];
      Append(g, PairSum(q, power), q)
  }

  /** `d[key].append(q)` on a `defaultdict(list)`. */
  function Append(g: map<int, seq<Pair>>, key: int, q: Pair): map<int, seq<Pair>>
  {
    g[key := (if key in g then g[key] else []) + [q]]
  }

  /** The mapping a completed run hands over as `sum_combinations`. */
  function Enumerate(power: nat, maxSum: int, m: int): map<int, seq<Pair>>
  {
    GroupBySum(power, QualifyingPairs(power, maxSum, m))
  }

  /** The pairs of `pairs` whose power sum is `s`, in their original order. */
  function WithSum(power: nat, pairs: seq<Pair>, s: int): seq<Pair>
  {
    if pairs == [] then []
    else
      var q := pairs[|pairs| - 1];
      WithSum(power, pairs[..|pairs| - 1], s) + (if PairSum(q, power) == s then [q] else [])
  }

  // ---------------------------------------------------------------------------
  // Counter and progress
  // ---------------------------------------------------------------------------

  /**
   * How many inner iterations increment `current_pair` for the outer values a..m:
   * a row whose first candidate 2*a^p already overflows breaks at once, any other
   * row scans every b from a to m.
   */
  function ScannedFrom(power: nat, maxSum: int, m: int, a: int): nat
    decreases m + 1 - a
  {
    if a > m then 0
    else (if 2 * Pow(a, power) <= maxSum then m - a + 1 else 0) + ScannedFrom(power, maxSum, m, a + 1)
  }

  function Scanned(power: nat, maxSum: int, m: int): nat
  {
    ScannedFrom(power, maxSum, m, 1)
  }

  /**
   * How many times the inner loop of row `a` reads `should_stop` in a full run: once for
   * every b from a to m, or only once when the first candidate b == a already overflows.
   */
  function RowCheckpoints(power: nat, maxSum: int, m: int, a: int): nat
  {
    if a > m then 0 else if 2 * Pow(a, power) <= maxSum then m - a + 1 else 1
  }

  /**
   * How many times a full run reads `should_stop` for the outer values a..m: once at the
   * head of each outer iteration, up to and including the one that breaks, plus the
   * reads of the inner loop.
   */
  function CheckpointsFrom(power: nat, maxSum: int, m: int, a: int): nat
    decreases m + 1 - a
  {
    if a > m then 0
    else if Pow(a, power) > maxSum then 1
    else 1 + RowCheckpoints(power, maxSum, m, a) + CheckpointsFrom(power, maxSum, m, a + 1)
  }

  function Checkpoints(power: nat, maxSum: int, m: int): nat
  {
    CheckpointsFrom(power, maxSum, m, 1)
  }

  /** No stop is requested at any of the first `n` reads of the flag. */
  ghost predicate NoRequestBefore(stopRequested: nat -> bool, n: nat)
  {
    n == 0 || (NoRequestBefore(stopRequested, n - 1) && !stopRequested(n - 1))
  }

  lemma {:induction false} NoRequestBeforeAll(stopRequested: nat -> bool, n: nat)
    ensures NoRequestBefore(stopRequested, n) <==> forall k :: 0 <= k < n ==> !stopRequested(k)
  {
    if n > 0 {
      NoRequestBeforeAll(stopRequested, n - 1);
    }
  }

  /** The progress signals emitted while the counter runs from 1 up to `c`. */
  function Milestones(c: nat, total: int): seq<Event>
  {
    if c == 0 then []
    else Milestones(c - 1, total) + (if c % 1000 == 0 then [Progress(c, total)] else [])
  }

  // ---------------------------------------------------------------------------
  // Properties of the reference enumeration
  // ---------------------------------------------------------------------------

  lemma {:induction false} RowFromMembers(power: nat, maxSum: int, m: int, a: int, b: int, q: Pair)
    ensures q in RowFrom(power, maxSum, m, a, b) <==>
            q.a == a && b <= q.b <= m && PairSum(q, power) <= maxSum
    decreases m + 1 - b
  {
    if b <= m {
      RowFromMembers(power, maxSum, m, a, b + 1, q);
    }
  }

  lemma {:induction false} RowsFromMembers(power: nat, maxSum: int, m: int, a: int, q: Pair)
    ensures q in RowsFrom(power, maxSum, m, a) <==>
            a <= q.a <= q.b <= m && PairSum(q, power) <= maxSum
    decreases m + 1 - a
  {
    if a <= m {
      RowFromMembers(power, maxSum, m, a, a, q);
      RowsFromMembers(power, maxSum, m, a + 1, q);
    }
  }

  /** A pair is enumerated exactly when it is canonical, within `m` and within `maxSum`. */
  lemma QualifyingPairsMembers(power: nat, maxSum: int, m: int, q: Pair)
    ensures q in QualifyingPairs(power, maxSum, m) <==>
            1 <= q.a <= q.b <= m && PairSum(q, power) <= maxSum
  {
    RowsFromMembers(power, maxSum, m, 1, q);
  }

  lemma SortedConcat(s: seq<Pair>, t: seq<Pair>)
    requires StrictlySorted(s) && StrictlySorted(t)
    requires forall i, j :: 0 <= i < |s| && 0 <= j < |t| ==> LexLess(s[i], t[j])
    ensures StrictlySorted(s + t)
  {
  }

  lemma {:induction false} RowFromSorted(power: nat, maxSum: int, m: int, a: int, b: int)
    ensures StrictlySorted(RowFrom(power, maxSum, m, a, b))
    ensures forall q :: q in RowFrom(power, maxSum, m, a, b) ==> q.a == a && q.b >= b
    decreases m + 1 - b
  {
    if b <= m {
      RowFromSorted(power, maxSum, m, a, b + 1);
      var head := if Pow(a, power) + Pow(b, power) <= maxSum then [Pair(a, b)] else [];
      var tail := RowFrom(power, maxSum, m, a, b + 1);
      assert forall i, j :: 0 <= i < |head| && 0 <= j < |tail| ==> LexLess(head[i], tail[j]) by {
        forall i, j | 0 <= i < |head| && 0 <= j < |tail| ensures LexLess(head[i], tail[j]) {
          assert tail[j] in tail;
        }
      }
      SortedConcat(head, tail);
    }
  }

  lemma {:induction false} RowsFromSorted(power: nat, maxSum: int, m: int, a: int)
    ensures StrictlySorted(RowsFrom(power, maxSum, m, a))
    ensures forall q :: q in RowsFrom(power, maxSum, m, a) ==> q.a >= a
    decreases m + 1 - a
  {
    if a <= m {
      RowFromSorted(power, maxSum, m, a, a);
      RowsFromSorted(power, maxSum, m, a + 1);
      var row := RowFrom(power, maxSum, m, a, a);
      var rest := RowsFrom(power, maxSum, m, a + 1);
      assert forall i, j :: 0 <= i < |row| && 0 <= j < |rest| ==> LexLess(row[i], rest[j]) by {
        forall i, j | 0 <= i < |row| && 0 <= j < |rest| ensures LexLess(row[i], rest[j]) {
          assert row[i] in row && rest[j] in rest;
        }
      }
      SortedConcat(row, rest);
    }
  }

  /** Discovery order is lexicographic and strict, so no unordered pair is visited twice. */
  lemma QualifyingPairsSorted(power: nat, maxSum: int, m: int)
    ensures StrictlySorted(QualifyingPairs(power, maxSum, m))
  {
    RowsFromSorted(power, maxSum, m, 1);
  }

  lemma {:induction false} WithSumMembers(power: nat, pairs: seq<Pair>, s: int, q: Pair)
    ensures q in WithSum(power, pairs, s) <==> q in pairs && PairSum(q, power) == s
  {
    if pairs != [] {
      var init := pairs[..|pairs| - 1];
      WithSumMembers(power, init, s, q);
      assert pairs == init + [pairs[|pairs| - 1]];
    }
  }

  /** Filtering keeps the relative order: a filtered sorted sequence is sorted. */
  lemma {:induction false} WithSumSorted(power: nat, pairs: seq<Pair>, s: int)
    requires StrictlySorted(pairs)
    ensures StrictlySorted(WithSum(power, pairs, s))
  {
    if pairs != [] {
      var init := pairs[..|pairs| - 1];
      var last := pairs[|pairs| - 1];
      WithSumSorted(power, init, s);
      var w := WithSum(power, init, s);
      var tail := if PairSum(last, power) == s then [last] else [];
      forall i, j | 0 <= i < |w| && 0 <= j < |tail| ensures LexLess(w[i], tail[j]) {
        WithSumMembers(power, init, s, w[i]);
        var k :| 0 <= k < |init| && init[k] == w[i];
        assert pairs[k] == w[i] && pairs[|pairs| - 1] == tail[j];
      }
      SortedConcat(w, tail);
    }
  }

  /**
   * Grouping puts each sum's pairs, in their original order, under that sum,
   * and has a key exactly for the sums that occur.
   */
  lemma {:induction false} GroupBySumIsFilter(power: nat, pairs: seq<Pair>, s: int)
    ensures s in GroupBySum(power, pairs) <==> WithSum(power, pairs, s) != []
    ensures s in GroupBySum(power, pairs) ==> GroupBySum(power, pairs)[s] == WithSum(power, pairs, s)
  {
    if pairs != [] {
      GroupBySumIsFilter(power, pairs[..|pairs| - 1], s);
    }
  }

  // ---------------------------------------------------------------------------
  // What the result promises
  // ---------------------------------------------------------------------------

  /** Every stored pair is canonical, within `m`, and sums to its key, which is within `maxSum`. */
  lemma EnumerateSound(power: nat, maxSum: int, m: int, s: int, q: Pair)
    requires s in Enumerate(power, maxSum, m) && q in Enumerate(power, maxSum, m)[s]
    ensures 1 <= q.a <= q.b <= m
    ensures PairSum(q, power) == s <= maxSum
  {
    var pairs := QualifyingPairs(power, maxSum, m);
    GroupBySumIsFilter(power, pairs, s);
    WithSumMembers(power, pairs, s, q);
    QualifyingPairsMembers(power, maxSum, m, q);
  }

  /** Every canonical pair within `m` and `maxSum` is stored under its sum. */
  lemma EnumerateComplete(power: nat, maxSum: int, m: int, q: Pair)
    requires 1 <= q.a <= q.b <= m && PairSum(q, power) <= maxSum
    ensures PairSum(q, power) in Enumerate(power, maxSum, m)
    ensures q in Enumerate(power, maxSum, m)[PairSum(q, power)]
  {
    var pairs := QualifyingPairs(power, maxSum, m);
    var s := PairSum(q, power);
    QualifyingPairsMembers(power, maxSum, m, q);
    WithSumMembers(power, pairs, s, q);
    GroupBySumIsFilter(power, pairs, s);
  }

  /**
   * With a bound `m` such that (m+1)^p >= maxSum, no qualifying pair at all is missed:
   * any canonical pair with a^p + b^p <= maxSum has b <= m.
   */
  lemma EnumerateCompleteUnbounded(power: nat, maxSum: int, m: nat, q: Pair)
    requires Pow(m + 1, power) >= maxSum
    requires 1 <= q.a <= q.b && PairSum(q, power) <= maxSum
    ensures PairSum(q, power) in Enumerate(power, maxSum, m)
    ensures q in Enumerate(power, maxSum, m)[PairSum(q, power)]
  {
    if q.b > m {
      PowMonotone(m + 1, q.b, power);
      PowMonotone(1, q.a, power);
      assert false;
    }
    EnumerateComplete(power, maxSum, m, q);
  }

  /** Within a group the pairs are in discovery order (a, then b, ascending) and distinct. */
  lemma EnumerateGroupsOrdered(power: nat, maxSum: int, m: int, s: int)
    requires s in Enumerate(power, maxSum, m)
    ensures StrictlySorted(Enumerate(power, maxSum, m)[s])
    ensures forall i, j :: 0 <= i < j < |Enumerate(power, maxSum, m)[s]| ==>
              Enumerate(power, maxSum, m)[s][i] != Enumerate(power, maxSum, m)[s][j]
  {
    var pairs := QualifyingPairs(power, maxSum, m);
    QualifyingPairsSorted(power, maxSum, m);
    GroupBySumIsFilter(power, pairs, s);
    WithSumSorted(power, pairs, s);
  }

  /** No pair sits in two groups: a group's key is the pair's own sum. */
  lemma EnumerateGroupsDisjoint(power: nat, maxSum: int, m: int, s: int, t: int, q: Pair)
    requires s in Enumerate(power, maxSum, m) && t in Enumerate(power, maxSum, m)
    requires q in Enumerate(power, maxSum, m)[s] && q in Enumerate(power, maxSum, m)[t]
    ensures s == t
  {
    EnumerateSound(power, maxSum, m, s, q);
    EnumerateSound(power, maxSum, m, t, q);
  }

  /** The smallest power sum is 1 + 1, so a threshold below 2 yields an empty mapping. */
  lemma EnumerateSmallMaxSum(power: nat, maxSum: int, m: int)
    requires maxSum < 2
    ensures Enumerate(power, maxSum, m) == map[]
  {
    var pairs := QualifyingPairs(power, maxSum, m);
    if pairs != [] {
      var q := pairs[0];
      QualifyingPairsMembers(power, maxSum, m, q);
      PowMonotone(1, q.a, power);
      PowMonotone(1, q.b, power);
      assert false;
    }
  }

  // ---------------------------------------------------------------------------
  // Why the early exits lose nothing
  // ---------------------------------------------------------------------------

  /** Once a^p + b^p overflows, every larger b overflows too. */
  lemma {:induction false} RowFromEmpty(power: nat, maxSum: int, m: int, a: int, b: int)
    requires 1 <= a <= b && Pow(a, power) + Pow(b, power) > maxSum
    ensures RowFrom(power, maxSum, m, a, b) == []
    decreases m + 1 - b
  {
    if b <= m {
      PowMonotone(b, b + 1, power);
      RowFromEmpty(power, maxSum, m, a, b + 1);
    }
  }

  /** Once a^p alone overflows, no row from a onwards has a qualifying pair. */
  lemma {:induction false} RowsFromEmpty(power: nat, maxSum: int, m: int, a: int)
    requires 1 <= a && Pow(a, power) > maxSum
    ensures RowsFrom(power, maxSum, m, a) == []
    ensures ScannedFrom(power, maxSum, m, a) == 0
    decreases m + 1 - a
  {
    if a <= m {
      PowMonotone(a, a, power);
      RowFromEmpty(power, maxSum, m, a, a);
      PowMonotone(a, a + 1, power);
      RowsFromEmpty(power, maxSum, m, a + 1);
    }
  }

  // ---------------------------------------------------------------------------
  // Properties of the counter and of the progress signals
  // ---------------------------------------------------------------------------

  function TriangleFrom(m: int, a: int): nat
    decreases m + 1 - a
  {
    if a > m then 0 else (m - a + 1) + TriangleFrom(m, a + 1)
  }

  lemma {:induction false} TriangleFromClosed(m: int, a: int)
    requires 1 <= a <= m + 1
    ensures 2 * TriangleFrom(m, a) == (m - a + 1) * (m - a + 2)
    decreases m + 1 - a
  {
    if a <= m {
      TriangleFromClosed(m, a + 1);
      var k := m - a;
      assert (k + 1) * (k + 2) == k * (k + 1) + 2 * (k + 1);
    }
  }

  lemma {:induction false} ScannedFromBound(power: nat, maxSum: int, m: int, a: int)
    ensures ScannedFrom(power, maxSum, m, a) <= TriangleFrom(m, a)
    decreases m + 1 - a
  {
    if a <= m {
      ScannedFromBound(power, maxSum, m, a + 1);
    }
  }

  /** The counter never exceeds the `total_pairs` estimate m(m+1)/2. */
  lemma ScannedAtMostTotal(power: nat, maxSum: int, m: nat)
    ensures Scanned(power, maxSum, m) <= TotalPairs(m)
  {
    ScannedFromBound(power, maxSum, m, 1);
    TriangleFromClosed(m, 1);
  }

  /**
   * Progress is reported exactly at the positive multiples of 1000 up to the
   * counter, in increasing order, each with the same total.
   */
  lemma {:induction false} MilestonesShape(c: nat, total: int)
    ensures |Milestones(c, total)| == c / 1000
    ensures forall i :: 0 <= i < |Milestones(c, total)| ==>
              Milestones(c, total)[i] == Progress(1000 * (i + 1), total)
  {
    if c > 0 {
      MilestonesShape(c - 1, total);
    }
  }

  /** The signals of a shorter run are a prefix of those of a longer one. */
  lemma MilestonesPrefix(c: nat, d: nat, total: int)
    requires c <= d
    ensures Milestones(c, total) <= Milestones(d, total)
  {
    MilestonesShape(c, total);
    MilestonesShape(d, total);
    assert c / 1000 <= d / 1000;
  }

  /** Successive progress values strictly increase and each is a positive multiple of 1000 within the counter. */
  lemma MilestonesIncreasing(c: nat, total: int, i: int, j: int)
    requires 0 <= i < j < |Milestones(c, total)|
    ensures Milestones(c, total)[i].Progress? && Milestones(c, total)[j].Progress?
    ensures 0 < Milestones(c, total)[i].current < Milestones(c, total)[j].current <= c
    ensures Milestones(c, total)[i].current % 1000 == 0
  {
    MilestonesShape(c, total);
  }

  lemma ShiftFound(found: seq<Pair>, q: Pair, row: seq<Pair>)
    ensures found + ([q] + row) == found + [q] + row
  {
  }

  lemma GroupBySumSnoc(power: nat, found: seq<Pair>, q: Pair)
    ensures GroupBySum(power, found + [q]) == Append(GroupBySum(power, found), PairSum(q, power), q)
  {
    assert (found + [q])[..|found|] == found;
  }

  /** One more pair scanned: a progress event follows exactly when the count reaches a multiple of 1000. */
  lemma MilestonesStep(start: seq<Event>, c: nat, total: int)
    requires c >= 1
    ensures start + Milestones(c, total)
      == start + Milestones(c - 1, total) + (if c % 1000 == 0 then [Progress(c, total)] else [])
  {
    AppendAssoc(start, Milestones(c - 1, total), if c % 1000 == 0 then [Progress(c, total)] else []);
  }

  lemma AppendRow(found: seq<Pair>, row: seq<Pair>, rows: seq<Pair>, all: seq<Pair>)
    requires found + (row + rows) == all
    ensures found + row + rows == all
  {
  }

  lemma SplitEvents(x: seq<Event>, y: seq<Event>)
    ensures |x + y| >= |x| && (x + y)[..|x|] == x && (x + y)[|x|..] == y
  {
  }

  lemma AppendAssoc(x: seq<Event>, y: seq<Event>, z: seq<Event>)
    ensures x + y + z == x + (y + z)
  {
  }

  // ---------------------------------------------------------------------------
  // The engine
  // ---------------------------------------------------------------------------

  /**
   * `ComputationEngine`: the cooperative stop flag and the signals emitted so far.
   * The foreground's writes to `should_stop` during a run are modelled by the
   * oracle `stopRequested`: before the k-th poll of the flag, `stop_computation()`
   * has been called exactly when `stopRequested(k)` holds.
   */
  class ComputationEngine {
    var shouldStop: bool
    var events: seq<Event>

    constructor ()
      ensures !shouldStop && events == []
    {
      shouldStop := false;
      events := [];
    }

    /** `stop_computation`: request cooperative cancellation. */
    method StopComputation()
      modifies this
      ensures shouldStop && events == old(events)
    {
      shouldStop := true;
    }

    /** One poll of `self.should_stop` at a loop head. */
    method Poll(stopRequested: nat -> bool, k: nat) returns (stop: bool)
      modifies this
      ensures shouldStop == (old(shouldStop) || stopRequested(k)) && events == old(events)
      ensures stop == shouldStop
    {
      if stopRequested(k) {
        StopComputation();
      }
      stop := shouldStop;
    }

    /**
     * `compute_power_sums(power, max_sum)` with `max_individual` given as `m`.
     * The flag is cleared on entry; if it is seen set at either loop head the
     * method returns having emitted only progress signals; otherwise it emits
     * every progress signal of the full run and then `finished` with `Enumerate`.
     * `checkpoints` counts the reads of the flag: the run stops at the first read
     * at which a stop has been requested, and reads it `Checkpoints(...)` times when
     * no request comes.
     */
    method ComputePowerSums(power: nat, maxSum: int, m: nat, stopRequested: nat -> bool)
      returns (ghost checkpoints: nat)
      modifies this
      ensures |events| >= |old(events)| && events[..|old(events)|] == old(events)
      ensures shouldStop ==>
                events[|old(events)|..] <= Milestones(Scanned(power, maxSum, m), TotalPairs(m))
      ensures !shouldStop ==>
                events[|old(events)|..] ==
                  Milestones(Scanned(power, maxSum, m), TotalPairs(m))
                  + [Finished(ComputationResult(power, maxSum, Enumerate(power, maxSum, m)))]
      ensures (forall k: nat :: !stopRequested(k)) ==> !shouldStop
      ensures !shouldStop ==> checkpoints == Checkpoints(power, maxSum, m)
      ensures shouldStop ==>
                1 <= checkpoints <= Checkpoints(power, maxSum, m) && stopRequested(checkpoints - 1)
      ensures forall k :: 0 <= k < checkpoints && !(shouldStop && k == checkpoints - 1) ==>
                !stopRequested(k)
      ensures shouldStop <==> exists k :: 0 <= k < Checkpoints(power, maxSum, m) && stopRequested(k)
    {
      shouldStop := false;
      var totalPairs := m * (m + 1) / 2;
      var sumCombinations, currentPair, polls := ScanRows(power, maxSum, m, totalPairs, stopRequested);
      checkpoints := polls;
      NoRequestBeforeAll(stopRequested, if shouldStop then polls - 1 else polls);
      ghost var total := Scanned(power, maxSum, m);
      if shouldStop {
        MilestonesPrefix(currentPair, total, totalPairs);
        SplitEvents(old(events), Milestones(currentPair, totalPairs));
        assert 0 <= checkpoints - 1 < Checkpoints(power, maxSum, m) && stopRequested(checkpoints - 1);
      } else {
        var finished := [Finished(ComputationResult(power, maxSum, sumCombinations))];
        AppendAssoc(old(events), Milestones(currentPair, totalPairs), finished);
        SplitEvents(old(events), Milestones(currentPair, totalPairs) + finished);
        events := events + finished;
      }
    }

    /**
     * The outer loop `for a in range(1, max_individual + 1)` of `compute_power_sums`:
     * it reads the flag at the head of each iteration, breaks at the first `a` whose
     * power exceeds the threshold and scans every other row with `ScanRow`. It either
     * completes with the full grouping, counter and number of flag reads, or stops at
     * the first read that sees a request.
     */
    method ScanRows(power: nat, maxSum: int, m: nat, totalPairs: int, stopRequested: nat -> bool)
      returns (sumCombinations: map<int, seq<Pair>>, currentPair: nat, polls: nat)
      requires !shouldStop
      modifies this
      ensures events == old(events) + Milestones(currentPair, totalPairs)
      ensures !shouldStop ==> sumCombinations == Enumerate(power, maxSum, m)
      ensures !shouldStop ==> currentPair == Scanned(power, maxSum, m)
      ensures !shouldStop ==> polls == Checkpoints(power, maxSum, m)
      ensures shouldStop ==> currentPair <= Scanned(power, maxSum, m)
      ensures shouldStop ==> 1 <= polls <= Checkpoints(power, maxSum, m) && stopRequested(polls - 1)
      ensures shouldStop ==> NoRequestBefore(stopRequested, polls - 1)
      ensures !shouldStop ==> NoRequestBefore(stopRequested, polls)
    {
      sumCombinations := map[];
      currentPair := 0;
      polls := 0;
      ghost var found: seq<Pair> := [];
      ghost var total := Scanned(power, maxSum, m);
      ghost var all := QualifyingPairs(power, maxSum, m);

      var a := 1;
      var stop, last := false, false;
      while a <= m && !stop && !last
        invariant 1 <= a <= m + 1
        invariant shouldStop == stop
        invariant events == old(events) + Milestones(currentPair, totalPairs)
        invariant !stop ==> sumCombinations == GroupBySum(power, found)
        invariant !stop && !last ==>
                    found + RowsFrom(power, maxSum, m, a) == all
                    && currentPair + ScannedFrom(power, maxSum, m, a) == total
                    && polls + CheckpointsFrom(power, maxSum, m, a) == Checkpoints(power, maxSum, m)
                    && NoRequestBefore(stopRequested, polls)
        invariant !stop && last ==>
                    found == all && currentPair == total && polls == Checkpoints(power, maxSum, m)
                    && NoRequestBefore(stopRequested, polls)
        invariant stop ==>
                    1 <= polls <= Checkpoints(power, maxSum, m) && currentPair <= total
                    && stopRequested(polls - 1) && NoRequestBefore(stopRequested, polls - 1)
        decreases m + 1 - a, if stop || last then 0 else 1
      {
        sumCombinations, currentPair, polls, stop, last, found :=
          VisitRow(power, maxSum, m, a, totalPairs, stopRequested,
                   sumCombinations, currentPair, polls, old(events), found);
        if !stop && !last {
          a := a + 1;
        }
      }
      if !stop && !last {
        assert found == all;
      }
    }

    /**
     * One iteration of the outer loop: read the flag, break when a's power alone exceeds the
     * threshold (`last`), and otherwise scan row a with `ScanRow`. The pairs found, the counter
     * and the flag reads advance from row a to row a + 1 as the specification functions do.
     */
    method VisitRow(power: nat, maxSum: int, m: nat, a: int, totalPairs: int, stopRequested: nat -> bool,
                    sums: map<int, seq<Pair>>, count: nat, polls: nat, ghost start: seq<Event>, ghost found: seq<Pair>)
      returns (sums': map<int, seq<Pair>>, count': nat, polls': nat, stop: bool, last: bool, ghost found': seq<Pair>)
      requires 1 <= a <= m
      requires !shouldStop && events == start + Milestones(count, totalPairs)
      requires sums == GroupBySum(power, found)
      requires NoRequestBefore(stopRequested, polls)
      modifies this
      ensures stop == shouldStop && events == start + Milestones(count', totalPairs)
      ensures stop ==> polls < polls' <= polls + CheckpointsFrom(power, maxSum, m, a)
      ensures stop ==> NoRequestBefore(stopRequested, polls' - 1)
      ensures !stop ==> NoRequestBefore(stopRequested, polls')
      ensures stop ==> stopRequested(polls' - 1) && count' <= count + ScannedFrom(power, maxSum, m, a)
      ensures !stop ==> sums' == GroupBySum(power, found')
      ensures !stop && last ==>
                found' == found && RowsFrom(power, maxSum, m, a) == [] && count' == count
                && ScannedFrom(power, maxSum, m, a) == 0 && polls' == polls + CheckpointsFrom(power, maxSum, m, a)
      ensures !stop && !last ==>
                found' + RowsFrom(power, maxSum, m, a + 1) == found + RowsFrom(power, maxSum, m, a)
                && count' + ScannedFrom(power, maxSum, m, a + 1) == count + ScannedFrom(power, maxSum, m, a)
                && polls' + CheckpointsFrom(power, maxSum, m, a + 1) == polls + CheckpointsFrom(power, maxSum, m, a)
    {
      sums', count', found', last := sums, count, found, false;
      stop := Poll(stopRequested, polls);
      polls' := polls + 1;
      if stop {
        return;
      }

      var aPower := Pow(a, power);
      if aPower > maxSum {
        RowsFromEmpty(power, maxSum, m, a);
        last := true;
        return;
      }

      assert CheckpointsFrom(power, maxSum, m, a)
             == 1 + RowCheckpoints(power, maxSum, m, a) + CheckpointsFrom(power, maxSum, m, a + 1);
      sums', count', polls', stop, found' :=
        ScanRow(power, maxSum, m, a, aPower, totalPairs, stopRequested, sums, count, polls', start, found);
      if !stop {
        AppendRow(found, RowFrom(power, maxSum, m, a, a), RowsFrom(power, maxSum, m, a + 1),
                  found + RowsFrom(power, maxSum, m, a));
      }
    }

    /**
     * The inner loop `for b in range(a, max_individual + 1)` of `compute_power_sums`
     * for a value `a` whose power does not exceed the threshold: it appends the row's
     * qualifying pairs, counts every iteration that does not break and reports
     * progress, unless the flag is seen set first.
     */
    method ScanRow(power: nat, maxSum: int, m: nat, a: int, aPower: int, totalPairs: int,
                   stopRequested: nat -> bool, sums: map<int, seq<Pair>>, count: nat, polls: nat,
                   ghost start: seq<Event>, ghost found: seq<Pair>)
      returns (sums': map<int, seq<Pair>>, count': nat, polls': nat, stop: bool, ghost found': seq<Pair>)
      requires 1 <= a <= m && aPower == Pow(a, power) <= maxSum
      requires !shouldStop && events == start + Milestones(count, totalPairs)
      requires sums == GroupBySum(power, found)
      requires NoRequestBefore(stopRequested, polls)
      modifies this
      ensures stop == shouldStop && events == start + Milestones(count', totalPairs)
      ensures (forall k: nat :: !stopRequested(k)) ==> !stop
      ensures stop ==> count' <= count + (if 2 * aPower <= maxSum then m - a + 1 else 0)
      ensures !stop ==> found' == found + RowFrom(power, maxSum, m, a, a)
      ensures !stop ==> sums' == GroupBySum(power, found')
      ensures !stop ==> count' == count + (if 2 * aPower <= maxSum then m - a + 1 else 0)
      ensures !stop ==> polls' == polls + RowCheckpoints(power, maxSum, m, a)
      ensures stop ==> polls < polls' <= polls + RowCheckpoints(power, maxSum, m, a)
      ensures stop ==> stopRequested(polls' - 1)
      ensures stop ==> NoRequestBefore(stopRequested, polls' - 1)
      ensures !stop ==> NoRequestBefore(stopRequested, polls')
    {
      sums', count', polls', stop, found' := sums, count, polls, false, found;
      var b := a;
      while b <= m
        invariant a <= b <= m + 1
        invariant !shouldStop && !stop
        invariant b == a || 2 * aPower <= maxSum
        invariant sums' == GroupBySum(power, found')
        invariant found' + RowFrom(power, maxSum, m, a, b) == found + RowFrom(power, maxSum, m, a, a)
        invariant count' + (if 2 * aPower <= maxSum then m - b + 1 else 0)
                    == count + (if 2 * aPower <= maxSum then m - a + 1 else 0)
        invariant events == start + Milestones(count', totalPairs)
        invariant polls' == polls + (b - a)
        invariant NoRequestBefore(stopRequested, polls')
        decreases m + 1 - b
      {
        stop := Poll(stopRequested, polls');
        polls' := polls' + 1;
        if stop {
          break;
        }

        var overflow;
        sums', count', overflow, found' :=
          ExaminePair(power, maxSum, m, a, b, aPower, totalPairs, sums', count', start, found');
        if overflow {
          break;
        }
        b := b + 1;
      }
      if !stop {
        assert found' == found + RowFrom(power, maxSum, m, a, a);
      }
    }

    /**
     * The body of the inner loop after the flag check: the pair (a, b) is stored when its
     * power sum is within the threshold, the loop breaks when b == a overflows, and
     * otherwise the counter advances and a progress signal is emitted at each multiple of 1000.
     */
    method ExaminePair(power: nat, maxSum: int, m: nat, a: int, b: int, aPower: int, totalPairs: int,
                       sums: map<int, seq<Pair>>, count: nat, ghost start: seq<Event>, ghost found: seq<Pair>)
      returns (sums': map<int, seq<Pair>>, count': nat, overflow: bool, ghost found': seq<Pair>)
      requires 1 <= a <= b <= m && aPower == Pow(a, power) <= maxSum
      requires b == a || 2 * aPower <= maxSum
      requires sums == GroupBySum(power, found)
      requires events == start + Milestones(count, totalPairs)
      modifies this
      ensures shouldStop == old(shouldStop)
      ensures overflow <==> b == a && 2 * aPower > maxSum
      ensures overflow ==> RowFrom(power, maxSum, m, a, a) == [] && count' == count
      ensures overflow ==> sums' == sums && found' == found
      ensures overflow ==> events == start + Milestones(count, totalPairs)
      ensures !overflow ==> found' + RowFrom(power, maxSum, m, a, b + 1) == found + RowFrom(power, maxSum, m, a, b)
      ensures !overflow ==> sums' == GroupBySum(power, found') && count' == count + 1
      ensures !overflow ==> events == start + Milestones(count', totalPairs)
    {
      sums', count', overflow, found' := sums, count, false, found;
      var bPower := Pow(b, power);
      var powerSum := aPower + bPower;
      ghost var row := RowFrom(power, maxSum, m, a, b + 1);
      if powerSum <= maxSum {
        GroupBySumSnoc(power, found, Pair(a, b));
        assert RowFrom(power, maxSum, m, a, b) == [Pair(a, b)] + row;
        ShiftFound(found, Pair(a, b), row);
        sums' := Append(sums, powerSum, Pair(a, b));
        found' := found + [Pair(a, b)];
      } else if b == a {
        RowFromEmpty(power, maxSum, m, a, a);
        overflow := true;
        return;
      } else {
        assert RowFrom(power, maxSum, m, a, b) == row;
      }

      count' := count + 1;
      MilestonesStep(start, count', totalPairs);
      if count' % 1000 == 0 {
        events := events + [Progress(count', totalPairs)];
      }
    }
  }

  /** A stop requested before the run starts is lost: the entry reset clears it. */
  method StopBeforeStartIsLost(power: nat, maxSum: int, m: nat) returns (finished: bool)
    ensures finished
  {
    var engine := new ComputationEngine();
    engine.StopComputation();
    ghost var checkpoints := engine.ComputePowerSums(power, maxSum, m, k => false);
    finished := |engine.events| > 0 && engine.events[|engine.events| - 1].Finished?;
  }
}
