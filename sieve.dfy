/**
 * The list-based prime sieve: `nums = list(range(2, n + 1))`, then for every element
 * `curr` still in the list, every later multiple of `curr` is removed with
 * `nums.remove(multiple)` while a `for` loop is iterating over that same list. A Python
 * list iterator walks an index, so the element right after a removed one moves into the
 * slot already visited and is skipped for the rest of that pass.
 */
module Sieve {
  import opened SeqFacts
  import opened Arith

  // ---------------------------------------------------------------------------
  // The list operations and the sieve as written
  // ---------------------------------------------------------------------------

  predicate IsPrime(v: int)
  {
    v >= 2 && forall d :: 2 <= d < v ==> v % d != 0
  }

  predicate StrictlySorted(s: seq<int>)
  {
    forall i, j :: 0 <= i < j < |s| ==> s[i] < s[j]
  }

  /** `list(range(lo, hi))`. */
  function Range(lo: int, hi: int): (r: seq<int>)
    ensures |r| == (if lo < hi then hi - lo else 0)
    ensures forall k :: 0 <= k < |r| ==> r[k] == lo + k
  {
    seq(if lo < hi then hi - lo else 0, k => lo + k)
  }

  /** `range(lo, hi)` is strictly increasing and holds exactly the integers from lo below hi. */
  lemma RangeSpec(lo: int, hi: int)
    ensures StrictlySorted(Range(lo, hi))
    ensures forall v :: v in Range(lo, hi) <==> lo <= v < hi
  {
    var r := Range(lo, hi);
    forall v | lo <= v < hi
      ensures v in r
    {
      assert r[v - lo] == v;
    }
  }

  /** `s.remove(v)`: drops the first occurrence of `v`. */
  function RemoveFirst(s: seq<int>, v: int): (r: seq<int>)
    requires v in s
    ensures |r| == |s| - 1
    ensures forall x :: x in r ==> x in s
  {
    if s[0] == v then s[1..] else [s[0]] + RemoveFirst(s[1..], v)
  }

  /** The test that removes `multiple` in the pass of `curr`. */
  predicate Hit(multiple: int, curr: int)
    requires curr != 0
  {
    multiple > curr && multiple % curr == 0
  }

  /**
   * One pass of the inner loop, from the iterator's index `j` on. After a removal the
   * iterator still moves to `j + 1`, which now holds what used to follow the removed value.
   */
  function InnerPass(nums: seq<int>, curr: int, j: nat): (r: seq<int>)
    requires curr != 0
    ensures |r| <= |nums|
    ensures forall x :: x in r ==> x in nums
    decreases |nums| - j
  {
    if j >= |nums| then nums
    else if Hit(nums[j], curr) then InnerPass(RemoveFirst(nums, nums[j]), curr, j + 1)
    else InnerPass(nums, curr, j + 1)
  }

  predicate NoZero(nums: seq<int>)
  {
    forall k :: 0 <= k < |nums| ==> nums[k] != 0
  }

  /** The outer loop, from the iterator's index `i` on: each element still present in turn. */
  function OuterPass(nums: seq<int>, i: nat): seq<int>
    requires NoZero(nums)
    decreases |nums| - i
  {
    if i >= |nums| then nums
    else
      var next := InnerPass(nums, nums[i], 0);
      assert NoZero(next) by {
        forall k | 0 <= k < |next| ensures next[k] != 0 {
          assert next[k] in next;
        }
      }
      OuterPass(next, i + 1)
  }

  /** What `prime_sieve(n)` returns. */
  function Sieve(n: int): seq<int>
  {
    OuterPass(Range(2, n + 1), 0)
  }

  /** `prime_sieve` with its two nested loops over the shrinking list. */
  method PrimeSieve(n: int) returns (nums: seq<int>)
    ensures nums == Sieve(n)
  {
    nums := Range(2, n + 1);
    var i := 0;
    while i < |nums|
      invariant NoZero(nums)
      invariant OuterPass(nums, i) == Sieve(n)
      decreases |nums| - i
    {
      var curr := nums[i];
      i := i + 1;
      ghost var before := nums;
      var j := 0;
      while j < |nums|
        invariant |nums| <= |before|
        invariant forall x :: x in nums ==> x in before
        invariant InnerPass(nums, curr, j) == InnerPass(before, curr, 0)
        decreases |nums| - j
      {
        var multiple := nums[j];
        j := j + 1;
        if multiple > curr && multiple % curr == 0 {
          nums := RemoveFirst(nums, multiple);
        }
      }
      forall k | 0 <= k < |nums| ensures nums[k] != 0 {
        assert nums[k] in nums;
      }
    }
  }

  /** `number in prime_sieve(number)`, the verdict `main` prints. */
  method IsPrimeByMembership(number: int) returns (prime: bool)
    ensures prime <==> number in Sieve(number)
    ensures IsPrime(number) ==> prime
    ensures number <= 120 ==> (prime <==> IsPrime(number))
  {
    var primes := PrimeSieve(number);
    prime := number in primes;
    SieveSound(number);
    if number <= 120 {
      SieveComplete(number);
    }
  }

  // ---------------------------------------------------------------------------
  // What holds of every pass
  // ---------------------------------------------------------------------------

  lemma {:induction false} RemoveFirstKeeps(s: seq<int>, v: int, x: int)
    requires v in s && x in s && x != v
    ensures x in RemoveFirst(s, v)
    decreases |s|
  {
    if s[0] != v && x != s[0] {
      RemoveFirstKeeps(s[1..], v, x);
    }
  }

  lemma {:induction false} RemoveFirstSorted(s: seq<int>, v: int)
    requires v in s && StrictlySorted(s)
    ensures StrictlySorted(RemoveFirst(s, v))
    decreases |s|
  {
    if s[0] != v {
      var rest := RemoveFirst(s[1..], v);
      RemoveFirstSorted(s[1..], v);
      forall k | 0 <= k < |rest| ensures s[0] < rest[k] {
        assert rest[k] in rest;
      }
    }
  }

  /** Removing a value that is not among the first `k` elements leaves those in place. */
  lemma {:induction false} RemoveFirstPrefix(s: seq<int>, v: int, k: nat)
    requires v in s && k <= |s| && v !in s[..k]
    ensures k <= |RemoveFirst(s, v)| && RemoveFirst(s, v)[..k] == s[..k]
    decreases |s|
  {
    if k > 0 {
      assert s[0] in s[..k];
      var u := s[1..][..k - 1];
      forall t | 0 <= t < |u| ensures u[t] != v {
        assert u[t] == s[..k][t + 1];
      }
      RemoveFirstPrefix(s[1..], v, k - 1);
    }
  }

  /** In a sorted list, removing the value at index `j` removes exactly that slot. */
  lemma {:induction false} RemoveFirstAt(s: seq<int>, j: nat)
    requires j < |s| && StrictlySorted(s)
    ensures RemoveFirst(s, s[j]) == s[..j] + s[j + 1..]
    decreases |s|
  {
    if j > 0 {
      RemoveFirstAt(s[1..], j - 1);
      assert s[1..][j - 1] == s[j];
      assert [s[0]] + (s[1..][..j - 1] + s[1..][j..]) == s[..j] + s[j + 1..];
    }
  }

  /** A pass removes only multiples of `curr` greater than `curr`. */
  lemma {:induction false} InnerPassKeeps(nums: seq<int>, curr: int, j: nat, x: int)
    requires curr != 0 && x in nums && !Hit(x, curr)
    ensures x in InnerPass(nums, curr, j)
    decreases |nums| - j
  {
    if j < |nums| && Hit(nums[j], curr) {
      RemoveFirstKeeps(nums, nums[j], x);
      InnerPassKeeps(RemoveFirst(nums, nums[j]), curr, j + 1, x);
    } else if j < |nums| {
      InnerPassKeeps(nums, curr, j + 1, x);
    }
  }

  lemma {:induction false} InnerPassSorted(nums: seq<int>, curr: int, j: nat)
    requires curr != 0 && StrictlySorted(nums)
    ensures StrictlySorted(InnerPass(nums, curr, j))
    decreases |nums| - j
  {
    if j < |nums| && Hit(nums[j], curr) {
      RemoveFirstSorted(nums, nums[j]);
      InnerPassSorted(RemoveFirst(nums, nums[j]), curr, j + 1);
    } else if j < |nums| {
      InnerPassSorted(nums, curr, j + 1);
    }
  }

  /** Elements no greater than `curr` at the front of the list stay where they are. */
  lemma {:induction false} InnerPassPrefix(nums: seq<int>, curr: int, j: nat, k: nat)
    requires curr != 0 && k <= |nums|
    requires forall t :: 0 <= t < k ==> nums[t] <= curr
    ensures k <= |InnerPass(nums, curr, j)| && InnerPass(nums, curr, j)[..k] == nums[..k]
    decreases |nums| - j
  {
    if j < |nums| && Hit(nums[j], curr) {
      var v := nums[j];
      assert v !in nums[..k] by {
        forall t | 0 <= t < k ensures nums[..k][t] != v {
          assert nums[..k][t] == nums[t];
        }
      }
      RemoveFirstPrefix(nums, v, k);
      var next := RemoveFirst(nums, v);
      forall t | 0 <= t < k ensures next[t] <= curr {
        assert next[t] == next[..k][t] == nums[..k][t];
      }
      InnerPassPrefix(next, curr, j + 1, k);
    } else if j < |nums| {
      InnerPassPrefix(nums, curr, j + 1, k);
    }
  }

  /**
   * The pass of `curr = nums[i]` removes nothing at or before position `i`: `curr` keeps
   * its place, so the outer loop goes on with the next survivor.
   */
  lemma PassKeepsPrefix(nums: seq<int>, i: nat)
    requires StrictlySorted(nums) && i < |nums| && nums[i] != 0
    ensures i < |InnerPass(nums, nums[i], 0)|
    ensures InnerPass(nums, nums[i], 0)[..i + 1] == nums[..i + 1]
  {
    InnerPassPrefix(nums, nums[i], 0, i + 1);
  }

  // ---------------------------------------------------------------------------
  // Soundness for every n: sorted, within 2..n, and every prime kept
  // ---------------------------------------------------------------------------

  predicate Sound(nums: seq<int>, n: int)
  {
    StrictlySorted(nums)
    && (forall k :: 0 <= k < |nums| ==> 2 <= nums[k] <= n)
    && (forall v :: 2 <= v <= n && IsPrime(v) ==> v in nums)
  }

  lemma {:induction false} OuterPassSound(nums: seq<int>, i: nat, n: int)
    requires Sound(nums, n)
    ensures NoZero(nums) && Sound(OuterPass(nums, i), n)
    decreases |nums| - i
  {
    if i < |nums| {
      var curr := nums[i];
      var next := InnerPass(nums, curr, 0);
      InnerPassSorted(nums, curr, 0);
      forall k | 0 <= k < |next| ensures 2 <= next[k] <= n {
        assert next[k] in next;
      }
      forall v | 2 <= v <= n && IsPrime(v) ensures v in next {
        InnerPassKeeps(nums, curr, 0, v);
      }
      OuterPassSound(next, i + 1, n);
    }
  }

  /**
   * The result is strictly increasing, lies within 2..n (so it is empty for n < 2), and
   * holds every prime up to n: a value is removed only by a smaller divisor.
   */
  lemma SieveSound(n: int)
    ensures StrictlySorted(Sieve(n))
    ensures forall k :: 0 <= k < |Sieve(n)| ==> 2 <= Sieve(n)[k] <= n
    ensures n < 2 ==> Sieve(n) == []
    ensures forall v :: 2 <= v <= n && IsPrime(v) ==> v in Sieve(n)
  {
    var start := Range(2, n + 1);
    forall v | 2 <= v <= n && IsPrime(v) ensures v in start {
      assert start[v - 2] == v;
    }
    OuterPassSound(start, 0, n);
  }

  /** Every value a pass removes is composite: it has the smaller divisor `curr >= 2`. */
  lemma RemovedAreComposite(nums: seq<int>, curr: int, v: int)
    requires curr >= 2 && v in nums && v !in InnerPass(nums, curr, 0)
    ensures !IsPrime(v)
  {
    if !Hit(v, curr) {
      InnerPassKeeps(nums, curr, 0, v);
    }
  }

  // ---------------------------------------------------------------------------
  // Completeness for n <= 120
  // ---------------------------------------------------------------------------

  /** No element of `done` smaller than `v` divides it. */
  predicate Rough(v: int, done: seq<int>)
    requires forall k :: 0 <= k < |done| ==> done[k] != 0
  {
    forall k :: 0 <= k < |done| && done[k] < v ==> v % done[k] != 0
  }

  /**
   * The state before the outer loop reaches index `i`: the list holds exactly the values
   * in 2..n that no element before index `i` divides.
   */
  ghost predicate Sieved(nums: seq<int>, n: int, i: nat)
  {
    && StrictlySorted(nums) && i <= |nums|
    && (forall k :: 0 <= k < |nums| ==> 2 <= nums[k] <= n)
    && (forall v :: v in nums <==> 2 <= v <= n && Rough(v, nums[..i]))
  }

  /** The filter a pass would apply if it never skipped an element. */
  function Unhit(nums: seq<int>, curr: int): seq<int>
    requires curr != 0
  {
    if nums == [] then []
    else (if Hit(nums[0], curr) then [] else [nums[0]]) + Unhit(nums[1..], curr)
  }

  lemma {:induction false} UnhitMembers(nums: seq<int>, curr: int)
    requires curr != 0
    ensures forall v :: v in Unhit(nums, curr) <==> v in nums && !Hit(v, curr)
    decreases |nums|
  {
    if nums != [] {
      UnhitMembers(nums[1..], curr);
      assert forall v :: v in nums <==> v == nums[0] || v in nums[1..];
    }
  }

  /** No two neighbours from position `j` on are both removed by the pass of `curr`. */
  predicate NoAdjacentHits(nums: seq<int>, curr: int, j: nat)
    requires curr != 0
  {
    forall k :: j <= k && k + 1 < |nums| && Hit(nums[k], curr) ==> !Hit(nums[k + 1], curr)
  }

  /**
   * Removing the hit at `j` when its neighbour is no hit: the neighbour slides into slot
   * `j` and the rest moves up by one.
   */
  lemma RemoveHit(nums: seq<int>, curr: int, j: nat)
    requires curr != 0 && StrictlySorted(nums) && j + 1 < |nums|
    requires NoAdjacentHits(nums, curr, j) && Hit(nums[j], curr)
    ensures StrictlySorted(RemoveFirst(nums, nums[j]))
    ensures NoAdjacentHits(RemoveFirst(nums, nums[j]), curr, j + 1)
    ensures !Hit(nums[j + 1], curr)
    ensures RemoveFirst(nums, nums[j])[..j + 1] == nums[..j] + [nums[j + 1]]
    ensures RemoveFirst(nums, nums[j])[j + 1..] == nums[j + 2..]
  {
    var next := RemoveFirst(nums, nums[j]);
    RemoveFirstAt(nums, j);
    RemoveFirstSorted(nums, nums[j]);
    Cut(nums, j, next);
  }

  lemma UnhitCons(s: seq<int>, curr: int)
    requires curr != 0 && |s| >= 1
    ensures Unhit(s, curr) == (if Hit(s[0], curr) then [] else [s[0]]) + Unhit(s[1..], curr)
  {
  }

  /** When no removed value is followed by another one, the skips lose nothing. */
  lemma {:induction false} InnerPassExact(nums: seq<int>, curr: int, j: nat)
    requires curr != 0 && StrictlySorted(nums) && j <= |nums|
    requires NoAdjacentHits(nums, curr, j)
    ensures InnerPass(nums, curr, j) == nums[..j] + Unhit(nums[j..], curr)
    decreases |nums| - j
  {
    if j == |nums| {
      TakeAll(nums);
      assert nums[j..] == [];
    } else {
      DropStep(nums, j);
      UnhitCons(nums[j..], curr);
      if !Hit(nums[j], curr) {
        InnerPassExact(nums, curr, j + 1);
        TakeSnoc(nums, j);
        Assoc3(nums[..j], [nums[j]], Unhit(nums[j + 1..], curr));
      } else if j + 1 == |nums| {
        RemoveFirstAt(nums, j);
        assert nums[j + 1..] == [];
        assert RemoveFirst(nums, nums[j]) == nums[..j];
      } else {
        var next := RemoveFirst(nums, nums[j]);
        RemoveHit(nums, curr, j);
        InnerPassExact(next, curr, j + 1);
        DropStep(nums, j + 1);
        UnhitCons(nums[j + 1..], curr);
        Assoc3(nums[..j], [nums[j + 1]], Unhit(nums[j + 2..], curr));
      }
    }
  }

  /** A non-zero multiple of `e > 0` is at least `e` away from zero. */
  lemma MulAwayFromZero(t: int, e: int)
    requires e > 0
    ensures t >= 1 ==> t * e >= e
    ensures t <= -1 ==> t * e <= -e
  {
    MulMonotone(t, 1, e);
    MulMonotone(-1, t, e);
  }

  lemma MulMod(e: int, z: int)
    requires e > 0
    ensures (e * z) % e == 0
  {
    var q, r := (e * z) / e, (e * z) % e;
    assert e * z == e * q + r && 0 <= r < e;
    assert (z - q) * e == r;
    MulAwayFromZero(z - q, e);
  }

  /** Two distinct multiples of `d` are at least `d` apart. */
  lemma MultiplesApart(a: int, b: int, d: int)
    requires d > 0
    ensures a % d == 0 && b % d == 0 && a < b ==> a + d <= b
  {
    var x, y := a / d, b / d;
    assert a == d * x + a % d && b == d * y + b % d;
    MulMonotone(y, x + 1, d);
    MulMonotone(x, y, d);
  }

  /** In a sorted list nothing lies strictly between two neighbours. */
  lemma Between(nums: seq<int>, k: nat, w: int)
    requires StrictlySorted(nums) && k + 1 < |nums| && w in nums
    ensures w <= nums[k] || w >= nums[k + 1]
  {
    var t :| 0 <= t < |nums| && nums[t] == w;
    if t > k {
      assert t >= k + 1;
    }
  }

  /** A value found before `nums[i]` in a sorted list lies in `nums[..i]`. */
  lemma Before(nums: seq<int>, i: nat, q: int)
    requires StrictlySorted(nums) && i < |nums| && q in nums && q < nums[i]
    ensures q in nums[..i]
  {
    var t :| 0 <= t < |nums| && nums[t] == q;
    assert t < i;
    assert nums[..i][t] == q;
  }

  /** Primes up to n are always present: nothing smaller divides them. */
  lemma PrimePresent(nums: seq<int>, n: int, i: nat, q: int)
    requires Sieved(nums, n, i) && IsPrime(q) && q <= n
    ensures q in nums
  {
    var done := nums[..i];
    forall k | 0 <= k < |done| && done[k] < q ensures q % done[k] != 0 {
      assert done[k] == nums[k];
    }
  }

  lemma SmallPrimes()
    ensures IsPrime(2) && IsPrime(3) && IsPrime(5) && IsPrime(7)
  {
    forall d | 2 <= d < 7 ensures 7 % d != 0 {
      if d == 2 {} else if d == 3 {} else if d == 4 {} else if d == 5 {} else {}
    }
    forall d | 2 <= d < 5 ensures 5 % d != 0 {
      if d == 2 {} else if d == 3 {} else {}
    }
  }

  /** A prime `q` below `nums[i]` is among the elements already processed. */
  lemma Processed(nums: seq<int>, n: int, i: nat, q: int)
    requires Sieved(nums, n, i) && i < |nums| && IsPrime(q) && q < nums[i]
    ensures q in nums[..i]
  {
    assert nums[i] in nums;
    PrimePresent(nums, n, i, q);
    Before(nums, i, q);
  }

  /** A processed element never divides a larger member. */
  lemma NotDivisible(nums: seq<int>, n: int, i: nat, q: int, v: int)
    requires Sieved(nums, n, i) && q in nums[..i] && q < v && v in nums
    ensures v % q != 0
  {
    var done := nums[..i];
    var t :| 0 <= t < |done| && done[t] == q;
    assert done[t] == nums[t];
  }

  /** A processed prime divides no larger member, up to and including the current one. */
  lemma CoprimeToProcessed(nums: seq<int>, n: int, i: nat, q: int, v: int)
    requires Sieved(nums, n, i) && i < |nums| && IsPrime(q) && q < nums[i] && q < v && v in nums
    ensures v % q != 0
  {
    Processed(nums, n, i, q);
    NotDivisible(nums, n, i, q, v);
  }

  /**
   * A candidate `w` above `nums[k]` that no value in 2..nums[i]-1 divides is a member when
   * it is at most n, so the neighbour after `nums[k]` is no larger than `w`.
   */
  lemma Witness(nums: seq<int>, n: int, i: nat, k: nat, w: int)
    requires Sieved(nums, n, i) && i < |nums| && k + 1 < |nums| && nums[k] < w
    requires forall d :: 2 <= d < nums[i] ==> w % d != 0
    ensures nums[k + 1] <= w
  {
    assert nums[k + 1] in nums;
    if w <= n {
      var done := nums[..i];
      forall t | 0 <= t < |done| && done[t] < w ensures w % done[t] != 0 {
        assert done[t] == nums[t];
        assert done[t] < nums[i];
      }
      Between(nums, k, w);
    }
  }

  /** The current element is 2, 3, 5, 7 or at least 11: 4, 6, 8, 9 and 10 are gone by then. */
  lemma CurrentShape(nums: seq<int>, n: int, i: nat)
    requires Sieved(nums, n, i) && i < |nums|
    ensures nums[i] == 2 || nums[i] == 3 || nums[i] == 5 || nums[i] == 7 || nums[i] >= 11
  {
    var p := nums[i];
    assert p in nums;
    SmallPrimes();
    if p > 2 {
      CoprimeToProcessed(nums, n, i, 2, p);
    }
    if p > 3 {
      Processed(nums, n, i, 3);
      NotDivisible(nums, n, i, 3, p);
    }
  }

  lemma AfterHitOf2(nums: seq<int>, n: int, i: nat, k: nat)
    requires Sieved(nums, n, i) && i < |nums| && nums[i] == 2 && k + 1 < |nums|
    ensures Hit(nums[k], 2) ==> !Hit(nums[k + 1], 2)
  {
    var m := nums[k];
    Witness(nums, n, i, k, m + 1);
    MultiplesApart(m, nums[k + 1], 2);
  }

  /** A multiple of 4 or of 6 is even. */
  lemma EvenOfMultiple(w: int)
    ensures w % 4 == 0 ==> w % 2 == 0
    ensures w % 6 == 0 ==> w % 2 == 0
  {
    var q, t := w / 4, w / 6;
    assert w == 4 * q + w % 4 && 4 * q == 2 * (2 * q);
    assert w == 6 * t + w % 6 && 6 * t == 2 * (3 * t);
  }

  lemma OddShift(m: int, e: int)
    requires m % 2 != 0
    ensures (m + 2 * e) % 2 != 0
  {
    var q := m / 2;
    assert m + 2 * e == 2 * (q + e) + 1;
  }

  /** Of two values less than five apart, at most one is a multiple of 5. */
  lemma Apart5(x: int, e: int)
    requires 1 <= e <= 4
    ensures x % 5 == 0 ==> (x + e) % 5 != 0
  {
    var a := x / 5;
    assert x + e == 5 * a + (x % 5 + e);
  }

  /** For `m` coprime to 6, the next value coprime to 6 is at most four further. */
  lemma NextCoprimeTo6(m: int) returns (w: int)
    requires m % 2 != 0 && m % 3 != 0
    ensures m < w <= m + 4 && w % 2 != 0 && w % 3 != 0
  {
    var q := m / 3;
    assert m == 3 * q + m % 3;
    if m % 3 == 1 {
      assert m + 4 == 3 * (q + 1) + 2;
      w := m + 4;
    } else {
      assert m + 2 == 3 * (q + 1) + 1;
      w := m + 2;
    }
    OddShift(m, (w - m) / 2);
  }

  /** For `m` coprime to 30, the next value coprime to 30 is at most six further. */
  lemma NextCoprimeTo30(m: int) returns (w: int)
    requires m % 2 != 0 && m % 3 != 0 && m % 5 != 0
    ensures m < w <= m + 6 && w % 2 != 0 && w % 3 != 0 && w % 5 != 0
  {
    var q := m / 3;
    assert m == 3 * q + m % 3;
    OddShift(m, 3);
    if m % 3 == 1 {
      assert m + 6 == 3 * (q + 2) + 1;
      if (m + 4) % 5 != 0 {
        assert m + 4 == 3 * (q + 1) + 2;
        OddShift(m, 2);
        w := m + 4;
      } else {
        Apart5(m + 4, 2);
        w := m + 6;
      }
    } else {
      assert m + 6 == 3 * (q + 2) + 2;
      if (m + 2) % 5 != 0 {
        assert m + 2 == 3 * (q + 1) + 1;
        OddShift(m, 1);
        w := m + 2;
      } else {
        Apart5(m + 2, 4);
        w := m + 6;
      }
    }
  }

  /** A value coprime to 6 (and to 30) has no divisor in 2..4 (in 2..6). */
  lemma SmallDivisorsOf(w: int)
    requires w % 2 != 0 && w % 3 != 0
    ensures forall d :: 2 <= d < 5 ==> w % d != 0
    ensures w % 5 != 0 ==> forall d :: 2 <= d < 7 ==> w % d != 0
  {
    EvenOfMultiple(w);
    forall d | 2 <= d < 7 && (d < 5 || w % 5 != 0) ensures w % d != 0 {
      if d == 2 {} else if d == 3 {} else if d == 4 {} else if d == 5 {} else { assert d == 6; }
    }
  }

  lemma AfterHitOf3(nums: seq<int>, n: int, i: nat, k: nat)
    requires Sieved(nums, n, i) && i < |nums| && nums[i] == 3 && k + 1 < |nums|
    ensures Hit(nums[k], 3) ==> !Hit(nums[k + 1], 3)
  {
    var m := nums[k];
    if Hit(m, 3) {
      assert m in nums;
      SmallPrimes();
      CoprimeToProcessed(nums, n, i, 2, m);
      OddShift(m, 1);
      Witness(nums, n, i, k, m + 2);
      MultiplesApart(m, nums[k + 1], 3);
    }
  }

  lemma AfterHitOf5(nums: seq<int>, n: int, i: nat, k: nat)
    requires Sieved(nums, n, i) && i < |nums| && nums[i] == 5 && k + 1 < |nums|
    ensures Hit(nums[k], 5) ==> !Hit(nums[k + 1], 5)
  {
    var m := nums[k];
    if Hit(m, 5) {
      assert m in nums;
      SmallPrimes();
      CoprimeToProcessed(nums, n, i, 2, m);
      CoprimeToProcessed(nums, n, i, 3, m);
      var w := NextCoprimeTo6(m);
      SmallDivisorsOf(w);
      Witness(nums, n, i, k, w);
      MultiplesApart(m, nums[k + 1], 5);
    }
  }

  lemma AfterHitOf7(nums: seq<int>, n: int, i: nat, k: nat)
    requires Sieved(nums, n, i) && i < |nums| && nums[i] == 7 && k + 1 < |nums|
    ensures Hit(nums[k], 7) ==> !Hit(nums[k + 1], 7)
  {
    var m := nums[k];
    if Hit(m, 7) {
      assert m in nums;
      SmallPrimes();
      CoprimeToProcessed(nums, n, i, 2, m);
      CoprimeToProcessed(nums, n, i, 3, m);
      CoprimeToProcessed(nums, n, i, 5, m);
      var w := NextCoprimeTo30(m);
      SmallDivisorsOf(w);
      Witness(nums, n, i, k, w);
      MultiplesApart(m, nums[k + 1], 7);
    }
  }

  /** Up to 120, a multiple of `p >= 11` above `p` has one of the factors 2, 3, 5 or 7. */
  lemma SmallFactor(m: int, p: int)
    requires p >= 11 && m > p && m % p == 0 && m <= 120
    ensures m % 2 == 0 || m % 3 == 0 || m % 5 == 0 || m % 7 == 0
  {
    var a := m / p;
    assert m == p * a;
    MulMonotone(p, 11, a);
    MulMonotone(1, a, p);
    assert 2 <= a <= 10;
    if a % 2 == 0 {
      assert m == 2 * (p * (a / 2));
      MulMod(2, p * (a / 2));
    } else if a % 3 == 0 {
      assert m == 3 * (p * (a / 3));
      MulMod(3, p * (a / 3));
    } else if a == 5 {
      MulMod(5, p);
    } else {
      assert a == 7;
      MulMod(7, p);
    }
  }

  /** Up to 120, the passes from 11 on remove nothing. */
  lemma NoHitFrom11(nums: seq<int>, n: int, i: nat, k: nat)
    requires Sieved(nums, n, i) && i < |nums| && nums[i] >= 11 && k < |nums| && n <= 120
    ensures !Hit(nums[k], nums[i])
  {
    var p, m := nums[i], nums[k];
    if Hit(m, p) {
      assert m in nums;
      SmallPrimes();
      CoprimeToProcessed(nums, n, i, 2, m);
      CoprimeToProcessed(nums, n, i, 3, m);
      CoprimeToProcessed(nums, n, i, 5, m);
      CoprimeToProcessed(nums, n, i, 7, m);
      SmallFactor(m, p);
      assert false;
    }
  }

  /**
   * Up to 120, a pass never removes two neighbours: after a removed multiple of `curr`
   * some member lies before the next multiple.
   */
  lemma NoAdjacentUpTo120(nums: seq<int>, n: int, i: nat)
    requires Sieved(nums, n, i) && i < |nums| && n <= 120
    ensures NoAdjacentHits(nums, nums[i], 0)
  {
    var p := nums[i];
    CurrentShape(nums, n, i);
    forall k | 0 <= k && k + 1 < |nums| && Hit(nums[k], p) ensures !Hit(nums[k + 1], p) {
      if p == 2 {
        AfterHitOf2(nums, n, i, k);
      } else if p == 3 {
        AfterHitOf3(nums, n, i, k);
      } else if p == 5 {
        AfterHitOf5(nums, n, i, k);
      } else if p == 7 {
        AfterHitOf7(nums, n, i, k);
      } else {
        NoHitFrom11(nums, n, i, k + 1);
      }
    }
  }

  lemma RoughExtend(v: int, done: seq<int>, p: int)
    requires forall k :: 0 <= k < |done| ==> done[k] != 0
    requires p != 0
    ensures Rough(v, done + [p]) <==> Rough(v, done) && !(p < v && v % p == 0)
  {
    var ext := done + [p];
    assert ext[|done|] == p;
    assert forall k :: 0 <= k < |done| ==> ext[k] == done[k];
  }

  /** A pass without adjacent hits removes exactly the hits. */
  lemma PassMembers(nums: seq<int>, curr: int)
    requires curr != 0 && StrictlySorted(nums) && NoAdjacentHits(nums, curr, 0)
    ensures forall v :: v in InnerPass(nums, curr, 0) <==> v in nums && !Hit(v, curr)
  {
    InnerPassExact(nums, curr, 0);
    TakeNone(nums);
    assert [] + Unhit(nums, curr) == Unhit(nums, curr);
    UnhitMembers(nums, curr);
  }

  /** The pass of `nums[i]` turns the state at `i` into the state at `i + 1`. */
  lemma SievedStep(nums: seq<int>, n: int, i: nat)
    requires Sieved(nums, n, i) && i < |nums| && n <= 120
    ensures Sieved(InnerPass(nums, nums[i], 0), n, i + 1)
  {
    var p := nums[i];
    assert p in nums;
    var next := InnerPass(nums, p, 0);
    NoAdjacentUpTo120(nums, n, i);
    PassMembers(nums, p);
    InnerPassSorted(nums, p, 0);
    PassKeepsPrefix(nums, i);
    forall k | 0 <= k < |next| ensures 2 <= next[k] <= n {
      assert next[k] in next;
    }
    TakeSnoc(nums, i);
    forall v ensures v in next <==> 2 <= v <= n && Rough(v, next[..i + 1]) {
      RoughExtend(v, nums[..i], p);
    }
  }

  /** A composite number has a prime divisor smaller than itself. */
  lemma {:induction false} PrimeDivisor(v: int, d: int)
    requires 2 <= d < v && v % d == 0
    ensures exists q :: IsPrime(q) && q < v && v % q == 0
    decreases d
  {
    if !IsPrime(d) {
      var e :| 2 <= e < d && d % e == 0;
      DividesTrans(v, d, e);
      PrimeDivisor(v, e);
    }
  }

  lemma DividesTrans(v: int, d: int, e: int)
    requires v > 0 && d > 0 && e > 0 && v % d == 0 && d % e == 0
    ensures v % e == 0
  {
    var x, y := v / d, d / e;
    assert v == d * x && d == e * y;
    assert v == e * (y * x);
    MulMod(e, y * x);
  }

  /** After the last pass the list holds exactly the primes up to n. */
  lemma SievedFinal(nums: seq<int>, n: int)
    requires Sieved(nums, n, |nums|)
    ensures forall v :: v in nums <==> 2 <= v <= n && IsPrime(v)
  {
    assert nums[..|nums|] == nums;
    forall v | v in nums ensures IsPrime(v) {
      if !IsPrime(v) {
        var d :| 2 <= d < v && v % d == 0;
        PrimeDivisor(v, d);
        var q :| IsPrime(q) && q < v && v % q == 0;
        PrimePresent(nums, n, |nums|, q);
        assert false;
      }
    }
    forall v | 2 <= v <= n && IsPrime(v) ensures v in nums {
      PrimePresent(nums, n, |nums|, v);
    }
  }

  lemma {:induction false} OuterPassComplete(nums: seq<int>, n: int, i: nat)
    requires Sieved(nums, n, i) && n <= 120
    ensures NoZero(nums)
    ensures forall v :: v in OuterPass(nums, i) <==> 2 <= v <= n && IsPrime(v)
    decreases |nums| - i
  {
    if i < |nums| {
      SievedStep(nums, n, i);
      OuterPassComplete(InnerPass(nums, nums[i], 0), n, i + 1);
    } else {
      SievedFinal(nums, n);
    }
  }

  /**
   * Up to 120, which covers the `prime_sieve(100)` call in `main`, the skipped elements
   * never matter: the result is exactly the primes up to n.
   */
  lemma SieveComplete(n: int)
    requires n <= 120
    ensures forall v :: v in Sieve(n) <==> 2 <= v <= n && IsPrime(v)
  {
    var start := Range(2, n + 1);
    assert start[..0] == [];
    forall v ensures v in start <==> 2 <= v <= n && Rough(v, start[..0]) {
      if 2 <= v <= n {
        assert start[v - 2] == v;
      }
    }
    OuterPassComplete(start, n, 0);
  }
}
