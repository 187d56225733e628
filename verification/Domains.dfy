/**
 Block-aligned file domains (`ADIOI_GPFS_Calc_file_domains`): the accessed byte range is
 cut into one domain per aggregator, along file-system block boundaries.
 */
module Domains {
  import opened Sequences
  import opened Extents

  const DEFAULT_BLKSIZE := 1048576

  lemma {:induction false} SumUpdate(q: seq<int>, i: nat, v: int)
    requires i < |q|
    ensures Sum(q[i := v]) == Sum(q) - q[i] + v
  {
    var n := |q| - 1;
    if i < n {
      SumUpdate(q[..n], i, v);
      assert q[i := v][..n] == q[..n][i := v];
    } else {
      assert q[i := v][..n] == q[..n];
    }
  }

  lemma {:induction false} SumMonotone(q: seq<int>, i: nat, j: nat)
    requires i <= j <= |q| && forall k :: 0 <= k < |q| ==> q[k] >= 0
    ensures Sum(q[..i]) <= Sum(q[..j])
    decreases j
  {
    if i == j {
    } else {
      SumMonotone(q, i, j - 1);
      assert q[..j][..j - 1] == q[..j - 1];
    }
  }

  // ---------- What a list of domains promises ----------

  /** Consecutive domains covering [lo, hi].  Domains may be empty, and the last one may
      even start after `hi` (its size is then negative). */
  ghost predicate Partition(starts: seq<int>, ends: seq<int>, lo: int, hi: int) {
    && |starts| == |ends| > 0
    && starts[0] == lo && ends[|ends| - 1] == hi
    && (forall k :: 0 <= k < |starts| - 1 ==> ends[k] == starts[k + 1] - 1)
    && (forall i, j :: 0 <= i <= j < |starts| ==> starts[i] <= starts[j])
  }

  ghost predicate Aligned(starts: seq<int>, blk: int)
    requires blk > 0
  {
    forall k :: 1 <= k < |starts| ==> starts[k] % blk == 0
  }

  /** The domain that owns offset `x`: the last one starting at or before it. */
  function Owner(starts: seq<int>, x: int): (k: nat)
    requires |starts| > 0
    ensures k < |starts|
  {
    var n := |starts| - 1;
    if n == 0 || starts[n] <= x then n else Owner(starts[..n], x)
  }

  lemma {:induction false} OwnerBounds(starts: seq<int>, x: int)
    requires |starts| > 0
    ensures var k := Owner(starts, x);
      (k == 0 || starts[k] <= x) && forall j :: k < j < |starts| ==> x < starts[j]
  {
    var n := |starts| - 1;
    if n > 0 && starts[n] > x { OwnerBounds(starts[..n], x); }
  }

  /** Every byte of the range lies in exactly one domain. */
  lemma {:induction false} OwnerUnique(starts: seq<int>, ends: seq<int>, lo: int, hi: int, x: int, k: nat)
    requires Partition(starts, ends, lo, hi) && lo <= x <= hi && k < |starts|
    ensures starts[k] <= x <= ends[k] <==> k == Owner(starts, x)
  {
    OwnerBounds(starts, x);
    var o := Owner(starts, x);
    if k < o { assert starts[k + 1] <= starts[o]; }
  }

  lemma OwnerMonotone(starts: seq<int>, ends: seq<int>, lo: int, hi: int, x: int, y: int)
    requires Partition(starts, ends, lo, hi) && lo <= x <= y
    ensures Owner(starts, x) <= Owner(starts, y)
  {
    OwnerBounds(starts, x);
    OwnerBounds(starts, y);
  }

  /** No file-system block is shared by two aggregators. */
  lemma {:induction false} BlockNotShared(starts: seq<int>, ends: seq<int>, lo: int, hi: int, blk: int, x: int, y: int)
    requires blk > 0 && Partition(starts, ends, lo, hi) && Aligned(starts, blk)
    requires lo <= x <= hi && lo <= y <= hi && x / blk == y / blk
    ensures Owner(starts, x) == Owner(starts, y)
    decreases if x > y then 1 else 0
  {
    if x > y {
      BlockNotShared(starts, ends, lo, hi, blk, y, x);
    } else {
      var k, l := Owner(starts, x), Owner(starts, y);
      OwnerBounds(starts, x);
      OwnerBounds(starts, y);
      if k < l {
        SameBlock(x, starts[l], y, blk);
        assert false;
      }
    }
  }

  /** A block multiple above `x` and at most `y` separates their blocks. */
  lemma SameBlock(x: int, s: int, y: int, blk: int)
    requires blk > 0 && s % blk == 0 && x < s <= y
    ensures x / blk != y / blk
  {
    var i, j := x / blk, y / blk;
    if i == j {
      assert s == blk * (s / blk);
      assert blk * i <= x < s <= y < blk * (i + 1);
      MulLess(blk, i, s / blk);
      MulLess(blk, s / blk, i + 1);
      assert false;
    }
  }

  lemma MulLess(d: int, a: int, b: int)
    requires d > 0 && d * a < d * b
    ensures a < b
  {
  }

  // ---------- Distribution of blocks over the aggregators ----------

  /** `q[i]` blocks for aggregator i, `n` in all; the first one is not left empty. */
  ghost predicate Plan(q: seq<int>, n: int) {
    && |q| > 0 && Sum(q) == n
    && (forall i :: 0 <= i < |q| ==> q[i] >= 0)
    && (n > 0 ==> q[0] > 0)
  }

  /** Integer division of C: toward zero. */
  function TruncDiv(a: int, b: int): int
    requires b > 0
  {
    if a >= 0 then a / b else -((-a) / b)
  }

  ghost predicate SizesOf(sizes: seq<int>, q: seq<int>, blk: int) {
    |sizes| == |q| && forall i :: 0 <= i < |q| ==> sizes[i] == q[i] * blk
  }

  ghost function LargeCount(q: seq<int>, small: int): nat {
    if q == [] then 0 else
      LargeCount(q[..|q| - 1], small) + if q[|q| - 1] == small then 0 else 1
  }

  lemma {:induction false} SumOfLarge(q: seq<int>, small: int)
    requires forall i :: 0 <= i < |q| ==> q[i] == small || q[i] == small + 1
    ensures Sum(q) == |q| * small + LargeCount(q, small)
  {
    if q == [] {
    } else {
      var n := |q| - 1;
      SumOfLarge(q[..n], small);
      assert (n + 1) * small == n * small + small;
    }
  }

  /** The plain distribution: the first `large` aggregators get one block more. */
  method PlainSizes(naggs: nat, small: int, large: int, blk: int) returns (sizes: array<int>, ghost q: seq<int>)
    requires naggs > 0 && large < naggs
    ensures fresh(sizes) && sizes.Length == naggs
    ensures SizesOf(sizes[..], q, blk)
    ensures |q| == naggs && forall i :: 0 <= i < naggs ==> q[i] == if i < large then small + 1 else small
    ensures small >= 0 && large >= 0 ==> Plan(q, naggs * small + large) && LargeCount(q, small) == large
  {
    sizes := new int[naggs];
    for i := 0 to naggs
      invariant forall k :: 0 <= k < i ==> sizes[k] == PlainShare(small, large, k) * blk
    {
      if i < large {
        sizes[i] := (small + 1) * blk;
      } else {
        sizes[i] := small * blk;
      }
    }
    q := seq(naggs, k => PlainShare(small, large, k));
    if small >= 0 && large >= 0 {
      PlainPlan(naggs, small, large, q);
    }
  }

  function PlainShare(small: int, large: int, k: int): int {
    if k < large then small + 1 else small
  }

  lemma PlainPlan(naggs: nat, small: int, large: int, q: seq<int>)
    requires naggs > 0 && small >= 0 && 0 <= large < naggs
    requires |q| == naggs && forall k :: 0 <= k < naggs ==> q[k] == PlainShare(small, large, k)
    ensures Plan(q, naggs * small + large) && LargeCount(q, small) == large
  {
    PlainLarge(q, small, large);
    SumOfLarge(q, small);
    if large == 0 && small == 0 { assert naggs * small == 0; }
  }

  lemma {:induction false} PlainLarge(q: seq<int>, small: int, large: nat)
    requires forall k :: 0 <= k < |q| ==> q[k] == PlainShare(small, large, k)
    ensures LargeCount(q, small) == Min(|q|, large)
  {
    if q == [] {
    } else {
      PlainLarge(q[..|q| - 1], small, large);
    }
  }

  // ---------- Distribution balanced over the bridge nodes ----------

  /** After `j` enlargements: bridge b's aggregators are offs[b], ..., and the first
      bridge[b] - left[b] of them are large. */
  ghost predicate Bridged(bridge: seq<nat>, offs: seq<int>, left: seq<int>, q: seq<int>, small: int, j: int) {
    && |offs| == |left| == |bridge| && |q| == Sum(bridge)
    && (forall b :: 0 <= b < |bridge| ==> 0 <= left[b] <= bridge[b])
    && (forall b :: 0 <= b < |bridge| ==> 0 <= offs[b] && offs[b] + bridge[b] <= |q|)
    && (forall b, c :: 0 <= b < c < |bridge| ==> offs[b] + bridge[b] <= offs[c])
    && Sum(left) == |q| - j
    && (forall i :: 0 <= i < |q| ==> q[i] == small || q[i] == small + 1)
    && (forall b, i :: 0 <= b < |bridge| && offs[b] <= i < offs[b] + bridge[b] ==>
          q[i] == if i < offs[b] + bridge[b] - left[b] then small + 1 else small)
    && LargeCount(q, small) == j
    && (j > 0 ==> |q| > 0 && q[0] == small + 1)
  }

  /** The rounds of the deal: bridges before `next` have had k + 1 turns, the others k, as
      far as they have aggregators. */
  ghost predicate Level(bridge: seq<nat>, left: seq<int>, next: nat, k: nat) {
    && |left| == |bridge|
    && forall b :: 0 <= b < |bridge| ==> bridge[b] - left[b] == Min(bridge[b], if b < next then k + 1 else k)
  }

  /** One turn, found by going on from `start`: the same round, or the next one. */
  lemma LevelStep(bridge: seq<nat>, left: seq<int>, left': seq<int>, start: nat, hit: nat, next: nat, k: nat)
    returns (k': nat)
    requires Level(bridge, left, start, k) && start < |bridge| && hit < |bridge| && left[hit] > 0
    requires left' == left[hit := left[hit] - 1]
    requires next == if hit == |left| - 1 then 0 else hit + 1
    requires start <= hit ==> forall b :: start <= b < hit ==> left[b] == 0
    requires hit < start ==> forall b :: start <= b < |left| || 0 <= b < hit ==> left[b] == 0
    ensures Level(bridge, left', next, k')
  {
    k' := k + (if hit < start then 1 else 0) + (if hit == |bridge| - 1 then 1 else 0);
  }

  /** How many of the `n` aggregators from `a` on are large. */
  ghost function LargeFrom(q: seq<int>, a: int, n: nat, small: int): nat {
    if n == 0 then 0
    else LargeFrom(q, a, n - 1, small) + if 0 <= a + n - 1 < |q| && q[a + n - 1] == small + 1 then 1 else 0
  }

  /** ... of bridge b's. */
  ghost function LargeOf(q: seq<int>, bridge: seq<nat>, small: int, b: nat): nat
    requires b < |bridge|
  {
    LargeFrom(q, Sum(bridge[..b]), bridge[b], small)
  }

  /** Of the `n` aggregators from `a` on just the first `l` are large. */
  ghost predicate LargeFirst(q: seq<int>, a: int, n: nat, l: nat, small: int) {
    forall i :: a <= i < a + n && 0 <= i < |q| ==> q[i] == if i < a + l then small + 1 else small
  }

  /** Large domains are dealt breadth-first over the bridges: no bridge with a small one
      left is two behind another, or one behind a later one; within a bridge the large
      ones come first. */
  ghost predicate BreadthFirst(q: seq<int>, bridge: seq<nat>, small: int) {
    && (forall b :: 0 <= b < |bridge| ==>
          LargeFirst(q, Sum(bridge[..b]), bridge[b], LargeOf(q, bridge, small, b), small))
    && (forall b, c :: 0 <= b < |bridge| && 0 <= c < |bridge| && LargeOf(q, bridge, small, b) < bridge[b] ==>
          LargeOf(q, bridge, small, c) <= LargeOf(q, bridge, small, b) + 1)
    && (forall b, c :: 0 <= b < c < |bridge| && LargeOf(q, bridge, small, b) < bridge[b] ==>
          LargeOf(q, bridge, small, c) <= LargeOf(q, bridge, small, b))
  }

  lemma {:induction false} LargeFromCount(q: seq<int>, a: int, n: nat, l: nat, small: int)
    requires 0 <= a && a + n <= |q| && LargeFirst(q, a, n, l, small)
    ensures LargeFrom(q, a, n, small) == Min(n, l)
  {
    if n == 0 {
    } else {
      LargeFromCount(q, a, n - 1, l, small);
    }
  }

  lemma BridgedBreadth(bridge: seq<nat>, offs: seq<int>, left: seq<int>, q: seq<int>, small: int, j: int, next: nat,
                       k: nat)
    requires Bridged(bridge, offs, left, q, small, j) && Level(bridge, left, next, k)
    requires forall b :: 0 <= b < |bridge| ==> offs[b] == Sum(bridge[..b])
    ensures BreadthFirst(q, bridge, small)
  {
    hide Sum, LargeCount;
    forall b | 0 <= b < |bridge|
      ensures LargeOf(q, bridge, small, b) == bridge[b] - left[b]
      ensures LargeFirst(q, Sum(bridge[..b]), bridge[b], bridge[b] - left[b], small)
    {
      LargeFromCount(q, offs[b], bridge[b], bridge[b] - left[b], small);
    }
  }

  lemma {:induction false} LargeUpdate(q: seq<int>, i: nat, small: int)
    requires i < |q| && q[i] == small
    ensures LargeCount(q[i := small + 1], small) == LargeCount(q, small) + 1
  {
    var n := |q| - 1;
    if i < n {
      LargeUpdate(q[..n], i, small);
      assert q[i := small + 1][..n] == q[..n][i := small + 1];
    } else {
      assert q[i := small + 1][..n] == q[..n];
    }
  }

  lemma {:induction false} NoneLarge(q: seq<int>, small: int)
    requires forall i :: 0 <= i < |q| ==> q[i] == small
    ensures LargeCount(q, small) == 0
  {
    if q == [] {
    } else {
      NoneLarge(q[..|q| - 1], small);
    }
  }

  lemma BridgedPlan(bridge: seq<nat>, offs: seq<int>, left: seq<int>, q: seq<int>, small: nat, large: nat)
    requires Bridged(bridge, offs, left, q, small, large) && |q| > 0
    ensures Plan(q, |q| * small + large) && LargeCount(q, small) == large
  {
    SumOfLarge(q, small);
    if large == 0 && small == 0 { assert |q| * small == 0; }
  }

  lemma BridgedStep(bridge: seq<nat>, offs: seq<int>, left: seq<int>, q: seq<int>, small: int, j: int, b: nat, i: int)
    requires Bridged(bridge, offs, left, q, small, j) && j >= 0
    requires b < |bridge| && left[b] > 0 && i == offs[b] + bridge[b] - left[b]
    requires j == 0 ==> offs[b] == 0 && left[b] == bridge[b]
    ensures 0 <= i < |q| && q[i] == small
    ensures Bridged(bridge, offs, left[b := left[b] - 1], q[i := small + 1], small, j + 1)
  {
    hide Sum, LargeCount;
    var left1, q1 := left[b := left[b] - 1], q[i := small + 1];
    SumUpdate(left, b, left[b] - 1);
    LargeUpdate(q, i, small);
    forall c, k | 0 <= c < |bridge| && offs[c] <= k < offs[c] + bridge[c]
      ensures q1[k] == if k < offs[c] + bridge[c] - left1[c] then small + 1 else small
    {
      if c < b { assert offs[c] + bridge[c] <= offs[b]; }
      if b < c { assert offs[b] + bridge[b] <= offs[c]; }
    }
  }

  lemma {:induction false} BridgeOffsets(bridge: seq<nat>, b: nat, c: nat)
    requires b < c <= |bridge|
    ensures Sum(bridge[..b]) + bridge[b] <= Sum(bridge[..c])
    decreases c
  {
    assert bridge[..c][..c - 1] == bridge[..c - 1];
    if b < c - 1 { BridgeOffsets(bridge, b, c - 1); }
  }

  lemma {:induction false} SumPositive(s: seq<int>)
    requires Sum(s) > 0
    ensures exists b :: 0 <= b < |s| && s[b] > 0
  {
    var n := |s| - 1;
    if s[n] <= 0 {
      SumPositive(s[..n]);
      var b :| 0 <= b < n && s[..n][b] > 0;
      assert s[b] > 0;
    }
  }

  lemma {:induction false} SumZero(s: seq<int>)
    requires forall b :: 0 <= b < |s| ==> s[b] == 0
    ensures Sum(s) == 0
  {
    if s == [] {
    } else {
      SumZero(s[..|s| - 1]);
    }
  }

  /** The offset of each bridge's first aggregator in the rank list. */
  method BridgeListOffsets(bridge: seq<nat>) returns (offs: seq<int>)
    ensures |offs| == |bridge|
    ensures forall b :: 0 <= b < |bridge| ==> offs[b] == Sum(bridge[..b])
  {
    offs := [];
    for j := 0 to |bridge|
      invariant |offs| == j
      invariant forall b :: 0 <= b < j ==> offs[b] == Sum(bridge[..b])
    {
      var rankOffset := 0;
      for k := 0 to j
        invariant rankOffset == Sum(bridge[..k])
      {
        assert bridge[..k + 1][..k] == bridge[..k];
        rankOffset := rankOffset + bridge[k];
      }
      offs := offs + [rankOffset];
    }
  }

  /** Make the next aggregator of bridge `b` a large one. */
  method Enlarge(bridge: seq<nat>, offs: seq<int>, left0: seq<int>, b: nat, sizes: array<int>, small: int, blk: int,
                 ghost q0: seq<int>, ghost j: nat)
    returns (left: seq<int>, ghost q: seq<int>)
    requires Bridged(bridge, offs, left0, q0, small, j) && b < |bridge| && left0[b] > 0
    requires j == 0 ==> offs[b] == 0 && left0[b] == bridge[b]
    requires SizesOf(sizes[..], q0, blk)
    modifies sizes
    ensures Bridged(bridge, offs, left, q, small, j + 1) && left == left0[b := left0[b] - 1]
    ensures SizesOf(sizes[..], q, blk)
  {
    var current := bridge[b] - left0[b];
    var index := offs[b] + current;
    BridgedStep(bridge, offs, left0, q0, small, j, b, index);
    sizes[index] := (small + 1) * blk;
    q := q0[index := small + 1];
    left := left0[b := left0[b] - 1];
  }

  /** Search the bridges cyclically from `start` for one with an aggregator left.  The
      source's check that one search goes round the list at most once is the `assert`. */
  method FindBridge(left: seq<int>, start: nat) returns (hit: nat, next: nat)
    requires start < |left| && exists b :: 0 <= b < |left| && left[b] > 0
    requires forall b :: 0 <= b < |left| ==> left[b] >= 0
    ensures hit < |left| && left[hit] > 0
    ensures next == if hit == |left| - 1 then 0 else hit + 1
    ensures start <= hit ==> forall b :: start <= b < hit ==> left[b] == 0
    ensures hit < start ==> forall b :: start <= b < |left| || 0 <= b < hit ==> left[b] == 0
  {
    var nb := |left|;
    var found := false;
    var passes := 0;
    hit, next := 0, start;
    while !found
      invariant 0 <= next < nb
      invariant !found && passes == 0 ==> start <= next && forall b :: start <= b < next ==> left[b] == 0
      invariant !found && passes != 0 ==> passes == 1 && next < start
      invariant !found && passes != 0 ==> forall b :: start <= b < nb || 0 <= b < next ==> left[b] == 0
      invariant found ==> hit < nb && left[hit] > 0 && next == if hit == nb - 1 then 0 else hit + 1
      invariant found && start <= hit ==> forall b :: start <= b < hit ==> left[b] == 0
      invariant found && hit < start ==> forall b :: start <= b < nb || 0 <= b < hit ==> left[b] == 0
      decreases !found, 1 - passes, nb - next
    {
      if left[next] > 0 {
        found := true;
        hit := next;
      }
      if next == nb - 1 {
        assert passes == 0;
        passes := passes + 1;
        next := 0;
      } else {
        next := next + 1;
      }
    }
  }

  /** One more large block. */
  method DealOne(bridge: seq<nat>, offs: seq<int>, left0: seq<int>, start: nat, sizes: array<int>, small: int,
                 blk: int, ghost q0: seq<int>, ghost j: nat, ghost k: nat)
    returns (left: seq<int>, next: nat, ghost q: seq<int>, ghost k': nat)
    requires Bridged(bridge, offs, left0, q0, small, j) && j < |q0| && Level(bridge, left0, start, k)
    requires j == 0 ==> left0 == bridge && start == 0 && forall b :: 0 <= b < |bridge| ==> offs[b] == Sum(bridge[..b])
    requires start < |bridge|
    requires SizesOf(sizes[..], q0, blk)
    modifies sizes
    ensures Bridged(bridge, offs, left, q, small, j + 1)
    ensures next < |bridge| && Level(bridge, left, next, k')
    ensures SizesOf(sizes[..], q, blk)
  {
    SumPositive(left0);
    var hit;
    hit, next := FindBridge(left0, start);
    if j == 0 {
      SumZero(bridge[..hit]);
    }
    left, q := Enlarge(bridge, offs, left0, hit, sizes, small, blk, q0, j);
    k' := LevelStep(bridge, left0, left, start, hit, next, k);
  }

  /** Large blocks dealt breadth-first over the bridges. */
  method BridgeSizes(bridge: seq<nat>, naggs: nat, small: int, large: int, blk: int)
    returns (sizes: array<int>, ghost q: seq<int>)
    requires naggs > 0 && large < naggs && Sum(bridge) == naggs
    ensures fresh(sizes) && sizes.Length == naggs
    ensures SizesOf(sizes[..], q, blk)
    ensures |q| == naggs && BreadthFirst(q, bridge, small)
    ensures forall i :: 0 <= i < naggs ==> q[i] == small || q[i] == small + 1
    ensures small >= 0 && large >= 0 ==> Plan(q, naggs * small + large) && LargeCount(q, small) == large
  {
    hide Bridged, Level, BreadthFirst, SizesOf, Plan, LargeCount;
    sizes := new int[naggs](i => small * blk);
    q := seq(naggs, i => small);
    var offs := BridgeListOffsets(bridge);
    var left: seq<int> := bridge;
    BridgedStart(bridge, offs, q, small);
    AllSmall(sizes[..], q, small, blk);
    var next := 0;
    var j := 0;
    ghost var k := 0;
    LevelStart(bridge);
    while j < large
      invariant 0 <= j && (large >= 0 ==> j <= large)
      invariant 0 <= next < |bridge|
      invariant Bridged(bridge, offs, left, q, small, j) && Level(bridge, left, next, k)
      invariant j == 0 ==> left == bridge && next == 0
      invariant SizesOf(sizes[..], q, blk)
      decreases large - j
    {
      BridgedSizes(bridge, offs, left, q, small, j);
      left, next, q, k := DealOne(bridge, offs, left, next, sizes, small, blk, q, j, k);
      j := j + 1;
    }
    BridgedBreadth(bridge, offs, left, q, small, j, next, k);
    BridgedSizes(bridge, offs, left, q, small, j);
    if small >= 0 && large >= 0 {
      BridgedPlan(bridge, offs, left, q, small, large);
    }
  }

  lemma LevelStart(bridge: seq<nat>)
    ensures Level(bridge, bridge, 0, 0)
  {
  }

  lemma AllSmall(sizes: seq<int>, q: seq<int>, small: int, blk: int)
    requires |sizes| == |q| && forall i :: 0 <= i < |q| ==> q[i] == small && sizes[i] == small * blk
    ensures SizesOf(sizes, q, blk)
  {
  }

  lemma BridgedSizes(bridge: seq<nat>, offs: seq<int>, left: seq<int>, q: seq<int>, small: int, j: int)
    requires Bridged(bridge, offs, left, q, small, j)
    ensures |q| == Sum(bridge) && |offs| == |left| == |bridge|
    ensures forall i :: 0 <= i < |q| ==> q[i] == small || q[i] == small + 1
  {
  }

  lemma BridgedStart(bridge: seq<nat>, offs: seq<int>, q: seq<int>, small: int)
    requires |offs| == |bridge| && forall b :: 0 <= b < |bridge| ==> offs[b] == Sum(bridge[..b])
    requires |q| == Sum(bridge) && forall i :: 0 <= i < |q| ==> q[i] == small
    ensures Bridged(bridge, offs, bridge, q, small, 0)
  {
    NoneLarge(q, small);
    SumNonNeg(bridge);
    assert bridge[..|bridge|] == bridge;
    forall b, c | 0 <= b < c <= |bridge| ensures Sum(bridge[..b]) + bridge[b] <= Sum(bridge[..c]) {
      BridgeOffsets(bridge, b, c);
    }
    forall b | 0 <= b < |bridge| ensures offs[b] + bridge[b] <= |q| { BridgeOffsets(bridge, b, |bridge|); }
  }

  lemma {:induction false} SumNonNeg(q: seq<nat>)
    ensures Sum(q) >= 0
    ensures forall b :: 0 <= b <= |q| ==> Sum(q[..b]) >= 0
  {
    if q == [] {
    } else {
      var n := |q| - 1;
      SumNonNeg(q[..n]);
      forall b | 0 <= b <= |q| ensures Sum(q[..b]) >= 0 {
        if b <= n { assert q[..b] == q[..n][..b]; } else { assert q[..b] == q; }
      }
    }
  }

  // ---------- The domain computation ----------

  function MinOf(s: seq<int>): int
    requires |s| > 0
  {
    if |s| == 1 then s[0] else Min(MinOf(s[..|s| - 1]), s[|s| - 1])
  }

  function MaxOf(s: seq<int>): int
    requires |s| > 0
  {
    if |s| == 1 then s[0] else Max(MaxOf(s[..|s| - 1]), s[|s| - 1])
  }

  lemma {:induction false} MinOfIsLeast(s: seq<int>)
    requires |s| > 0
    ensures MinOf(s) in s && forall i :: 0 <= i < |s| ==> MinOf(s) <= s[i]
  {
    if |s| == 1 {
    } else {
      MinOfIsLeast(s[..|s| - 1]);
    }
  }

  lemma {:induction false} MaxOfIsGreatest(s: seq<int>)
    requires |s| > 0
    ensures MaxOf(s) in s && forall i :: 0 <= i < |s| ==> s[i] <= MaxOf(s)
  {
    if |s| == 1 {
    } else {
      MaxOfIsGreatest(s[..|s| - 1]);
    }
  }

  function BlockSize(hint: int): int { if hint <= 0 then DEFAULT_BLKSIZE else hint }

  /** Sizes after the first domain gives up the bytes before the range and the last
      one those after it. */
  ghost predicate Trimmed(sizes: seq<int>, q: seq<int>, blk: int, lbRd: int, ubRd: int) {
    && |sizes| == |q| > 0
    && forall i :: 0 <= i < |q| ==>
         sizes[i] == q[i] * blk - (if i == 0 then lbRd else 0) - (if i == |q| - 1 then ubRd else 0)
  }

  lemma {:induction false} TrimmedPrefix(sizes: seq<int>, q: seq<int>, blk: int, lbRd: int, ubRd: int, k: nat)
    requires Trimmed(sizes, q, blk, lbRd, ubRd) && k <= |q|
    ensures Sum(sizes[..k]) ==
            blk * Sum(q[..k]) - (if k > 0 then lbRd else 0) - (if k == |q| then ubRd else 0)
  {
    if k == 0 {
    } else {
      TrimmedPrefix(sizes, q, blk, lbRd, ubRd, k - 1);
      assert sizes[..k][..k - 1] == sizes[..k - 1] && q[..k][..k - 1] == q[..k - 1];
      assert blk * (Sum(q[..k - 1]) + q[k - 1]) == blk * Sum(q[..k - 1]) + q[k - 1] * blk;
    }
  }

  /** The number of blocks between the block of `lo` and the first boundary not below `hi`. */
  lemma BlockCount(lo: int, hi: int, blk: int)
    requires blk > 0 && 0 <= lo <= hi
    ensures var c, f := (hi + blk - 1) / blk, lo / blk;
      f <= c && (c * blk - 1 - f * blk + 1) / blk == c - f && (c == f ==> lo == f * blk && lo == hi)
  {
    var c, f := (hi + blk - 1) / blk, lo / blk;
    assert hi + blk - 1 < blk * c + blk;
    assert blk * f <= lo;
    if c < f { MulLess2(blk, c, f); assert false; }
    assert c * blk - f * blk == (c - f) * blk;
    DivExact(c - f, blk);
  }

  lemma MulLess2(d: int, a: int, b: int)
    requires d > 0 && a < b
    ensures d * a + d <= d * b
  {
    assert d * (a + 1) <= d * b;
  }

  lemma DivExact(k: int, d: int)
    requires d > 0
    ensures (k * d) / d == k
  {
    var r := (k * d) % d;
    assert k * d == d * ((k * d) / d) + r;
    var e := k - (k * d) / d;
    assert d * e == r;
    if e > 0 { MulLess2(d, 0, e); assert false; }
    if e < 0 { MulLess2(d, e, 0); assert false; }
  }

  /** Where domain k >= 1 starts: at a block boundary, not before the range. */
  lemma PlanStart(sizes: seq<int>, q: seq<int>, blk: int, lo: int, hi: int, k: nat)
    requires blk > 0 && 0 <= lo <= hi && 1 <= k < |q|
    requires var c, f := (hi + blk - 1) / blk, lo / blk;
      Plan(q, c - f) && Trimmed(sizes, q, blk, lo - f * blk, c * blk - 1 - hi)
    ensures var s := lo + Sum(sizes[..k]);
      s == blk * (lo / blk + Sum(q[..k])) && s % blk == 0 && lo <= s
  {
    var c, f, t := (hi + blk - 1) / blk, lo / blk, Sum(q[..k]);
    BlockCount(lo, hi, blk);
    TrimmedPrefix(sizes, q, blk, lo - f * blk, c * blk - 1 - hi, k);
    FirstNotEmpty(q, c - f, k);
    StartArith(lo, blk, t, c > f);
  }

  lemma StartArith(lo: int, blk: int, t: nat, some: bool)
    requires blk > 0 && 0 <= lo
    requires if some then t >= 1 else lo == lo / blk * blk
    ensures var f := lo / blk;
      lo - (lo - f * blk) + blk * t == blk * (f + t) && (blk * (f + t)) % blk == 0 && lo <= blk * (f + t)
  {
    var f := lo / blk;
    assert blk * (f + t) == blk * f + blk * t;
    ModMultiple(f + t, blk);
    MulMono(blk, if some then 1 else 0, t);
  }

  lemma PlanEnd(sizes: seq<int>, q: seq<int>, blk: int, lo: int, hi: int)
    requires blk > 0 && 0 <= lo <= hi
    requires var c, f := (hi + blk - 1) / blk, lo / blk;
      Plan(q, c - f) && Trimmed(sizes, q, blk, lo - f * blk, c * blk - 1 - hi)
    ensures lo + Sum(sizes[..|q|]) - 1 == hi
  {
    var c, f, n := (hi + blk - 1) / blk, lo / blk, |q|;
    TrimmedPrefix(sizes, q, blk, lo - f * blk, c * blk - 1 - hi, n);
    assert q[..n] == q;
    assert blk * (c - f) == c * blk - f * blk;
  }

  /** Any block plan, trimmed and summed up, is a block-aligned partition of the range. */
  lemma {:induction false} PlanIsPartition(starts: seq<int>, ends: seq<int>, sizes: seq<int>, q: seq<int>, blk: int,
                                           lo: int, hi: int)
    requires blk > 0 && 0 <= lo <= hi
    requires var c, f := (hi + blk - 1) / blk, lo / blk;
      Plan(q, c - f) && Trimmed(sizes, q, blk, lo - f * blk, c * blk - 1 - hi)
    requires |starts| == |ends| == |sizes|
    requires forall k :: 0 <= k < |sizes| ==> starts[k] == lo + Sum(sizes[..k])
    requires forall k :: 0 <= k < |sizes| ==> ends[k] == lo + Sum(sizes[..k + 1]) - 1
    ensures Partition(starts, ends, lo, hi) && Aligned(starts, blk)
  {
    var f, n := lo / blk, |q|;
    forall k | 1 <= k < n
      ensures starts[k] == blk * (f + Sum(q[..k])) && starts[k] % blk == 0 && lo <= starts[k]
    {
      PlanStart(sizes, q, blk, lo, hi, k);
    }
    forall i, j | 0 <= i <= j < n ensures starts[i] <= starts[j] {
      if i > 0 {
        SumMonotone(q, i, j);
        MulMono(blk, f + Sum(q[..i]), f + Sum(q[..j]));
      }
    }
    PlanEnd(sizes, q, blk, lo, hi);
  }

  lemma MulMono(d: int, a: int, b: int)
    requires d >= 0 && a <= b
    ensures d * a <= d * b
  {
  }

  lemma ModMultiple(k: int, d: int)
    requires d > 0
    ensures (d * k) % d == 0
  {
    DivExact(k, d);
    assert d * k == k * d;
  }

  lemma FirstNotEmpty(q: seq<int>, n: int, k: nat)
    requires Plan(q, n) && 1 <= k <= |q| && n >= 0
    ensures Sum(q[..k]) >= 0 && (n > 0 ==> Sum(q[..k]) >= 1)
  {
    SumMonotone(q, 1, k);
    assert q[..1][..0] == [];
    assert Sum(q[..1]) == q[0];
  }

  /** The domain sizes telescope to the size of the whole range. */
  lemma {:induction false} SizesTile(starts: seq<int>, ends: seq<int>, lo: int, hi: int)
    requires Partition(starts, ends, lo, hi)
    ensures Sum(seq(|starts|, k requires 0 <= k < |starts| => ends[k] - starts[k] + 1)) == hi - lo + 1
  {
    var n := |starts| - 1;
    var z := seq(|starts|, k requires 0 <= k < |starts| => ends[k] - starts[k] + 1);
    if n == 0 {
      assert z[..0] == [];
    } else {
      SizesTile(starts[..n], ends[..n], lo, ends[n - 1]);
      assert z[..n] == seq(n, k requires 0 <= k < n => ends[..n][k] - starts[..n][k] + 1);
    }
  }

  /** `n` blocks over `naggs` aggregators: as even as can be; in the plain distribution the
      first n % naggs get one more, otherwise those chosen breadth-first over the bridges. */
  ghost predicate Dealt(q: seq<int>, n: int, naggs: nat, balance: bool, bridge: seq<nat>)
    requires naggs > 0
  {
    && |q| == naggs && Plan(q, n)
    && (forall i, j :: 0 <= i < naggs && 0 <= j < naggs ==> q[i] <= q[j] + 1)
    && (!balance ==> forall i :: 0 <= i < naggs ==> q[i] == n / naggs + if i < n % naggs then 1 else 0)
    && (balance ==> BreadthFirst(q, bridge, n / naggs))
  }

  /** The block boundary before domain i, counted from the file's start. */
  function Boundary(starts: seq<int>, lo: int, hi: int, blk: int, i: nat): int
    requires blk > 0 && i <= |starts|
  {
    if i == 0 then lo / blk else if i == |starts| then (hi + blk - 1) / blk else starts[i] / blk
  }

  /** How many blocks each domain covers. */
  ghost function BlocksOf(starts: seq<int>, lo: int, hi: int, blk: int): (r: seq<int>)
    requires blk > 0
    ensures |r| == |starts|
    ensures forall i :: 0 <= i < |r| ==> r[i] == Boundary(starts, lo, hi, blk, i + 1) - Boundary(starts, lo, hi, blk, i)
  {
    seq(|starts|, i requires 0 <= i < |starts| =>
      Boundary(starts, lo, hi, blk, i + 1) - Boundary(starts, lo, hi, blk, i))
  }

  /** The domains laid out from a plan cover the blocks of the plan. */
  lemma {:induction false} PlanBlocks(starts: seq<int>, sizes: seq<int>, q: seq<int>, blk: int, lo: int, hi: int)
    requires blk > 0 && 0 <= lo <= hi
    requires var c, f := (hi + blk - 1) / blk, lo / blk;
      Plan(q, c - f) && Trimmed(sizes, q, blk, lo - f * blk, c * blk - 1 - hi)
    requires |starts| == |sizes| && forall k :: 0 <= k < |sizes| ==> starts[k] == lo + Sum(sizes[..k])
    ensures BlocksOf(starts, lo, hi, blk) == q
    ensures forall k :: 1 <= k < |q| ==> starts[k] == blk * (lo / blk + Sum(q[..k]))
  {
    hide Plan, Trimmed, Sum, Boundary;
    PlanSize(sizes, q, blk, lo, hi);
    forall k | 0 <= k <= |q|
      ensures Boundary(starts, lo, hi, blk, k) == lo / blk + Sum(q[..k])
      ensures 1 <= k < |q| ==> starts[k] == blk * (lo / blk + Sum(q[..k]))
    {
      PlanBoundary(starts, sizes, q, blk, lo, hi, k);
    }
    forall i | 0 <= i < |q| ensures BlocksOf(starts, lo, hi, blk)[i] == q[i] {
      SumNext(q, i, i + 1);
    }
  }

  lemma SumNext(q: seq<int>, i: nat, j: nat)
    requires i < |q| && j == i + 1
    ensures Sum(q[..j]) == Sum(q[..i]) + q[i]
  {
    assert q[..j][..i] == q[..i];
  }

  lemma PlanBoundary(starts: seq<int>, sizes: seq<int>, q: seq<int>, blk: int, lo: int, hi: int, k: nat)
    requires blk > 0 && 0 <= lo <= hi && k <= |q|
    requires var c, f := (hi + blk - 1) / blk, lo / blk;
      Plan(q, c - f) && Trimmed(sizes, q, blk, lo - f * blk, c * blk - 1 - hi)
    requires |starts| == |sizes| && forall k :: 0 <= k < |sizes| ==> starts[k] == lo + Sum(sizes[..k])
    ensures |starts| == |q| && Boundary(starts, lo, hi, blk, k) == lo / blk + Sum(q[..k])
    ensures 1 <= k < |q| ==> starts[k] == blk * (lo / blk + Sum(q[..k]))
  {
    hide Plan, Trimmed;
    PlanSize(sizes, q, blk, lo, hi);
    if k == |q| {
      assert q[..k] == q;
    } else if k > 0 {
      PlanStart(sizes, q, blk, lo, hi, k);
      DivExact(lo / blk + Sum(q[..k]), blk);
    }
  }

  lemma PlanSize(sizes: seq<int>, q: seq<int>, blk: int, lo: int, hi: int)
    requires blk > 0
    requires var c, f := (hi + blk - 1) / blk, lo / blk;
      Plan(q, c - f) && Trimmed(sizes, q, blk, lo - f * blk, c * blk - 1 - hi)
    ensures |sizes| == |q| > 0 && Sum(q) == (hi + blk - 1) / blk - lo / blk
  {
  }

  /** In the plain distribution the first k domains cover k * small + Min(k, large) blocks. */
  lemma {:induction false} PlainPrefix(q: seq<int>, small: int, large: int, k: nat)
    requires k <= |q| && large >= 0 && forall i :: 0 <= i < |q| ==> q[i] == small + if i < large then 1 else 0
    ensures Sum(q[..k]) == k * small + Min(k, large)
  {
    if k == 0 {
    } else {
      PlainPrefix(q, small, large, k - 1);
      assert q[..k][..k - 1] == q[..k - 1];
      assert k * small == (k - 1) * small + small;
    }
  }

  /** Where the domains of the plain distribution start. */
  ghost predicate PlainStarts(starts: seq<int>, lo: int, hi: int, blk: int)
    requires blk > 0 && |starts| > 0
  {
    var n, naggs := (hi + blk - 1) / blk - lo / blk, |starts|;
    forall i :: 1 <= i < naggs ==> starts[i] == blk * (lo / blk + i * (n / naggs) + Min(i, n % naggs))
  }

  lemma PlainLayOut(starts: seq<int>, q: seq<int>, blk: int, lo: int, hi: int, bridge: seq<nat>)
    requires blk > 0 && |starts| == |q| > 0
    requires Dealt(q, (hi + blk - 1) / blk - lo / blk, |q|, false, bridge)
    requires forall k :: 1 <= k < |q| ==> starts[k] == blk * (lo / blk + Sum(q[..k]))
    ensures PlainStarts(starts, lo, hi, blk)
  {
    var n, naggs := (hi + blk - 1) / blk - lo / blk, |starts|;
    forall i | 1 <= i < naggs ensures starts[i] == blk * (lo / blk + i * (n / naggs) + Min(i, n % naggs)) {
      PlainPrefix(q, n / naggs, n % naggs, i);
    }
  }

  /** The trimmed sizes of all domains, by either distribution. */
  method CalcSizes(lo: int, hi: int, naggs: nat, blk: int, balance: bool, bridge: seq<nat>)
    returns (sizes: array<int>, ghost q: seq<int>)
    requires naggs > 0 && blk > 0 && 0 <= lo
    requires balance ==> Sum(bridge) == naggs
    ensures fresh(sizes) && sizes.Length == naggs
    ensures lo <= hi ==>
      var c, f := (hi + blk - 1) / blk, lo / blk;
      Dealt(q, c - f, naggs, balance, bridge) && Trimmed(sizes[..], q, blk, lo - f * blk, c * blk - 1 - hi)
  {
    hide BreadthFirst;
    var ub := TruncDiv(hi + blk - 1, blk) * blk - 1;
    var lb := lo / blk * blk;
    var ubRd := TruncDiv(hi + blk - 1, blk) * blk - 1 - hi;
    var lbRd := lo - lo / blk * blk;
    var range := ub - lb + 1;
    var blocks := TruncDiv(range, blk);
    var small := TruncDiv(blocks, naggs);
    var large := blocks - naggs * TruncDiv(blocks, naggs);
    LargeBound(blocks, naggs);
    if lo <= hi { BlockCount(lo, hi, blk); }
    if balance {
      sizes, q := BridgeSizes(bridge, naggs, small, large, blk);
    } else {
      sizes, q := PlainSizes(naggs, small, large, blk);
    }
    if lo <= hi { DealIsDivision(blocks, naggs, small, large); }
    sizes[0] := sizes[0] - lbRd;
    sizes[naggs - 1] := sizes[naggs - 1] - ubRd;
  }

  lemma DealIsDivision(n: nat, naggs: nat, small: int, large: int)
    requires naggs > 0 && small == TruncDiv(n, naggs) && large == n - naggs * TruncDiv(n, naggs)
    ensures small == n / naggs && large == n % naggs && naggs * small + large == n
  {
  }

  /** The least start and the greatest end over all processes. */
  method Bounds(st: seq<int>, en: seq<int>) returns (minSt: int, maxEnd: int)
    requires |st| == |en| > 0
    ensures minSt == MinOf(st) && minSt in st && forall i :: 0 <= i < |st| ==> minSt <= st[i]
    ensures maxEnd == MaxOf(en) && maxEnd in en && forall i :: 0 <= i < |en| ==> en[i] <= maxEnd
  {
    minSt := st[0];
    maxEnd := en[0];
    for i := 1 to |st|
      invariant minSt == MinOf(st[..i]) && maxEnd == MaxOf(en[..i])
    {
      assert st[..i + 1][..i] == st[..i] && en[..i + 1][..i] == en[..i];
      minSt := Min(minSt, st[i]);
      maxEnd := Max(maxEnd, en[i]);
    }
    assert st[..|st|] == st && en[..|en|] == en;
    MinOfIsLeast(st);
    MaxOfIsGreatest(en);
  }

  method CalcFileDomains(st: seq<int>, en: seq<int>, naggs: nat, blkHint: int, balance: bool, bridge: seq<nat>)
    returns (minSt: int, fdStart: array<int>, fdEnd: array<int>, fdSize: int)
    requires |st| == |en| > 0 && naggs > 0
    requires forall i :: 0 <= i < |st| ==> 0 <= st[i]
    requires balance ==> Sum(bridge) == naggs
    ensures fresh(fdStart) && fresh(fdEnd) && fdStart.Length == fdEnd.Length == naggs
    ensures minSt == MinOf(st) && fdStart[0] == minSt && fdSize == fdEnd[0] - fdStart[0] + 1
    ensures MinOf(st) <= MaxOf(en) ==>
      var lo, hi, blk := MinOf(st), MaxOf(en), if blkHint > 0 then blkHint else 0x100000;
      && Partition(fdStart[..], fdEnd[..], lo, hi) && Aligned(fdStart[..], blk)
      && Dealt(BlocksOf(fdStart[..], lo, hi, blk), (hi + blk - 1) / blk - lo / blk, naggs, balance, bridge)
      && (!balance ==> PlainStarts(fdStart[..], lo, hi, blk))
  {
    hide BreadthFirst, PlainStarts, Dealt, Aligned, Partition;
    var blk := BlockSize(blkHint);
    var maxEnd;
    minSt, maxEnd := Bounds(st, en);
    fdStart, fdEnd, fdSize := CutRange(minSt, maxEnd, naggs, blk, balance, bridge);
  }

  method CutRange(lo: int, hi: int, naggs: nat, blk: int, balance: bool, bridge: seq<nat>)
    returns (fdStart: array<int>, fdEnd: array<int>, fdSize: int)
    requires naggs > 0 && blk > 0 && 0 <= lo
    requires balance ==> Sum(bridge) == naggs
    ensures fresh(fdStart) && fresh(fdEnd) && fdStart.Length == fdEnd.Length == naggs
    ensures fdStart[0] == lo && fdSize == fdEnd[0] - fdStart[0] + 1
    ensures lo <= hi ==> Partition(fdStart[..], fdEnd[..], lo, hi) && Aligned(fdStart[..], blk)
    ensures lo <= hi ==>
      Dealt(BlocksOf(fdStart[..], lo, hi, blk), (hi + blk - 1) / blk - lo / blk, naggs, balance, bridge)
    ensures lo <= hi && !balance ==> PlainStarts(fdStart[..], lo, hi, blk)
  {
    hide BreadthFirst, PlainStarts, Dealt, Trimmed, Plan, Partition, Aligned, BlocksOf;
    var sizes; ghost var q;
    sizes, q := CalcSizes(lo, hi, naggs, blk, balance, bridge);
    fdStart, fdEnd := LayOut(sizes, lo);
    fdSize := sizes[0];
    assert sizes[..][..1][..0] == [] && sizes[..][..0] == [];
    assert Sum(sizes[..][..1]) == sizes[0];
    if lo <= hi {
      DealtPlan(q, (hi + blk - 1) / blk - lo / blk, naggs, balance, bridge);
      PlanIsPartition(fdStart[..], fdEnd[..], sizes[..], q, blk, lo, hi);
      PlanBlocks(fdStart[..], sizes[..], q, blk, lo, hi);
      if !balance { PlainLayOut(fdStart[..], q, blk, lo, hi, bridge); }
    }
  }

  lemma DealtPlan(q: seq<int>, n: int, naggs: nat, balance: bool, bridge: seq<nat>)
    requires naggs > 0 && Dealt(q, n, naggs, balance, bridge)
    ensures Plan(q, n) && |q| == naggs
  {
  }

  lemma LargeBound(n: int, d: nat)
    requires d > 0
    ensures var t := TruncDiv(n, d); n - d * t < d && (n >= 0 ==> t >= 0 && n - d * t >= 0)
  {
  }

  /** Consecutive domains of the given sizes. */
  method LayOut(sizes: array<int>, minSt: int) returns (fdStart: array<int>, fdEnd: array<int>)
    ensures fresh(fdStart) && fresh(fdEnd) && fdStart.Length == fdEnd.Length == sizes.Length
    ensures forall k :: 0 <= k < sizes.Length ==> fdStart[k] == minSt + Sum(sizes[..][..k])
    ensures forall k :: 0 <= k < sizes.Length ==> fdEnd[k] == minSt + Sum(sizes[..][..k + 1]) - 1
  {
    fdStart, fdEnd := new int[sizes.Length], new int[sizes.Length];
    var offset := minSt;
    for aggr := 0 to sizes.Length
      invariant offset == minSt + Sum(sizes[..][..aggr])
      invariant forall k :: 0 <= k < aggr ==> fdStart[k] == minSt + Sum(sizes[..][..k])
      invariant forall k :: 0 <= k < aggr ==> fdEnd[k] == minSt + Sum(sizes[..][..k + 1]) - 1
    {
      assert sizes[..][..aggr + 1][..aggr] == sizes[..][..aggr];
      fdStart[aggr] := offset;
      fdEnd[aggr] := offset + sizes[aggr] - 1;
      offset := offset + sizes[aggr];
    }
  }
}
