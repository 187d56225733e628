/**
 From access lists to per-aggregator requests: the aggregator search
 (`ADIOI_GPFS_Calc_aggregator`), the two-pass split along domain boundaries
 (`ADIOI_GPFS_Calc_my_req`) and the all-to-all that hands each aggregator the pieces of
 its domain (`ADIOI_GPFS_Calc_others_req`).
 */
module Requests {
  import opened Sequences
  import opened Extents
  import opened Domains
  import opened Shares

  // ---------- Aggregator search ----------

  /** How much of [off, off + len) lies in the domain that owns `off`. */
  function Room(starts: seq<int>, off: int, len: nat): (r: nat)
    requires |starts| > 0
    ensures r <= len && (len > 0 ==> r > 0)
  {
    OwnerBounds(starts, off);
    var k := Owner(starts, off);
    if k + 1 < |starts| then Min(len, starts[k + 1] - off) else len
  }

  /** The bisection, with `lb` set to the probed index rather than past it. */
  method CalcAggregator(starts: seq<int>, ends: seq<int>, ranklist: seq<nat>, off: int, len: nat, ghost lo: int,
                        ghost hi: int)
    returns (rank: nat, avail: nat)
    requires Partition(starts, ends, lo, hi) && |ranklist| == |starts|
    requires lo <= off && off + len <= hi + 1 && len > 0
    ensures rank == ranklist[Owner(starts, off)]
    ensures avail == Room(starts, off, len)
    ensures starts[Owner(starts, off)] <= off && off + avail - 1 <= ends[Owner(starts, off)]
  {
    OwnerBounds(starts, off);
    ghost var o := Owner(starts, off);
    var ub := |starts|;
    var lb := 0;
    var k := |starts| / 2;
    ghost var low := 0;  // the first index not yet excluded
    while off < starts[k] || off > ends[k]
      invariant 0 <= lb <= low <= lb + 1 && low <= k < ub <= |starts|
      invariant low <= o < ub
      decreases ub - low
    {
      if off > ends[k] {
        RightOf(starts, ends, lo, hi, off, k);
        lb := k;
        low := k + 1;
        k := (k + ub) / 2;
      } else if off < starts[k] {
        LeftOf(starts, ends, lo, hi, off, k);
        ub := k;
        k := (k + lb) / 2;
      }
    }
    OwnerUnique(starts, ends, lo, hi, off, k);
    var availBytes := ends[k] + 1 - off;
    avail := len;
    if availBytes < len && availBytes > 0 {
      avail := availBytes;
    }
    rank := ranklist[k];
  }

  lemma RightOf(starts: seq<int>, ends: seq<int>, lo: int, hi: int, off: int, k: nat)
    requires Partition(starts, ends, lo, hi) && lo <= off <= hi && k < |starts| && off > ends[k]
    ensures Owner(starts, off) > k
  {
    OwnerBounds(starts, off);
    assert k + 1 < |starts| && starts[k + 1] <= off;
  }

  lemma LeftOf(starts: seq<int>, ends: seq<int>, lo: int, hi: int, off: int, k: nat)
    requires Partition(starts, ends, lo, hi) && lo <= off <= hi && k < |starts| && off < starts[k]
    ensures Owner(starts, off) < k
  {
    OwnerBounds(starts, off);
  }

  // ---------- Splitting accesses along domain boundaries ----------

  /** A part of an access that lies in one domain. */
  datatype Piece = Piece(dom: nat, ext: Extent)

  function Split(starts: seq<int>, off: int, len: nat): seq<Piece>
    requires |starts| > 0
    decreases len
  {
    if len == 0 then []
    else
      var t := Room(starts, off, len);
      [Piece(Owner(starts, off), Extent(off, t))] + Split(starts, off + t, len - t)
  }

  function SplitAll(starts: seq<int>, xs: seq<Extent>): seq<Piece>
    requires |starts| > 0
  {
    if xs == [] then []
    else
      var n := |xs| - 1;
      SplitAll(starts, xs[..n]) + Split(starts, xs[n].off, xs[n].len)
  }

  function Exts(ps: seq<Piece>): seq<Extent> {
    if ps == [] then [] else Exts(ps[..|ps| - 1]) + [ps[|ps| - 1].ext]
  }

  /** The pieces of domain `d`, in order. */
  function In(ps: seq<Piece>, d: nat): seq<Extent> {
    if ps == [] then []
    else
      var n := |ps| - 1;
      In(ps[..n], d) + if ps[n].dom == d then [ps[n].ext] else []
  }

  lemma {:induction false} InConcat(ps: seq<Piece>, qs: seq<Piece>, d: nat)
    ensures In(ps + qs, d) == In(ps, d) + In(qs, d)
    decreases |qs|
  {
    if qs == [] {
      assert ps + qs == ps;
    } else {
      var n := |qs| - 1;
      InConcat(ps, qs[..n], d);
      assert (ps + qs)[..|ps| + n] == ps + qs[..n];
      var e := if qs[n].dom == d then [qs[n].ext] else [];
      assert In(qs, d) == In(qs[..n], d) + e;
      assert (In(ps, d) + In(qs[..n], d)) + e == In(ps, d) + (In(qs[..n], d) + e);
    }
  }

  lemma InOne(p: Piece, d: nat)
    ensures In([p], d) == if p.dom == d then [p.ext] else []
  {
    assert [p][..0] == [];
  }

  lemma FlatOne(x: Extent)
    ensures Flat([x]) == Range(x.off, x.len)
  {
    assert [x][..0] == [];
  }

  /** Bytes of one access that stay in the domain of its first byte. */
  lemma RoomOwned(starts: seq<int>, ends: seq<int>, lo: int, hi: int, off: int, len: nat, x: int)
    requires Partition(starts, ends, lo, hi) && lo <= off && off + len <= hi + 1
    requires off <= x < off + Room(starts, off, len)
    ensures Owner(starts, x) == Owner(starts, off)
  {
    OwnerBounds(starts, off);
    OwnerBounds(starts, x);
    OwnerMonotone(starts, ends, lo, hi, off, x);
    var k := Owner(starts, off);
    assert k + 1 < |starts| ==> x < starts[k + 1];
  }

  function Head(starts: seq<int>, off: int, t: nat, d: nat): seq<int>
    requires |starts| > 0
  {
    if Owner(starts, off) == d then Range(off, t) else []
  }

  /** The share of a run of bytes, cut off at its first domain boundary. */
  lemma ShareRoom(starts: seq<int>, ends: seq<int>, lo: int, hi: int, off: int, len: nat, t: nat, o2: int, l2: nat,
                  d: nat)
    requires Partition(starts, ends, lo, hi) && lo <= off && off + len <= hi + 1 && len > 0
    requires t == Room(starts, off, len) && o2 == off + t && l2 == len - t
    ensures Share(starts, d, Range(off, len), Range(off, len)) ==
            Head(starts, off, t, d) + Share(starts, d, Range(o2, l2), Range(o2, l2))
  {
    var r, r' := Range(off, t), Range(o2, l2);
    forall k | 0 <= k < t ensures Owner(starts, r[k]) == Owner(starts, off) {
      RoomOwned(starts, ends, lo, hi, off, len, r[k]);
    }
    ShareUniform(starts, d, Owner(starts, off), r, r);
    assert Range(off, len) == r + r';
    ShareConcat(starts, d, r, r, r', r');
  }

  lemma InSplit(starts: seq<int>, off: int, len: nat, t: nat, o2: int, l2: nat, d: nat)
    requires |starts| > 0 && len > 0
    requires t == Room(starts, off, len) && o2 == off + t && l2 == len - t
    ensures Flat(In(Split(starts, off, len), d)) == Head(starts, off, t, d) + Flat(In(Split(starts, o2, l2), d))
  {
    var p, rest := Piece(Owner(starts, off), Extent(off, t)), Split(starts, o2, l2);
    assert Split(starts, off, len) == [p] + rest;
    InConcat([p], rest, d);
    InOne(p, d);
    FlatConcat(In([p], d), In(rest, d));
    FlatOne(p.ext);
    assert Flat(In([p], d)) == Head(starts, off, t, d);
  }

  /** Split pieces of domain d are d's share of the access, byte for byte. */
  lemma {:induction false} SplitShare(starts: seq<int>, ends: seq<int>, lo: int, hi: int, off: int, len: nat, d: nat)
    requires Partition(starts, ends, lo, hi) && lo <= off && off + len <= hi + 1
    ensures Flat(In(Split(starts, off, len), d)) == Share(starts, d, Range(off, len), Range(off, len))
    decreases len
  {
    if len > 0 {
      var t := Room(starts, off, len);
      var o2, l2 := off + t, len - t;
      SplitShare(starts, ends, lo, hi, o2, l2, d);
      ShareRoom(starts, ends, lo, hi, off, len, t, o2, l2, d);
      InSplit(starts, off, len, t, o2, l2, d);
    } else {
      assert Range(off, len) == [];
    }
  }

  ghost predicate InRange(xs: seq<Extent>, lo: int, hi: int) {
    forall i :: 0 <= i < |xs| && xs[i].len > 0 ==> lo <= xs[i].off && xs[i].End() <= hi + 1
  }

  lemma {:induction false} SplitAllShare(starts: seq<int>, ends: seq<int>, lo: int, hi: int, xs: seq<Extent>, d: nat)
    requires Partition(starts, ends, lo, hi) && InRange(xs, lo, hi)
    ensures Flat(In(SplitAll(starts, xs), d)) == Share(starts, d, Flat(xs), Flat(xs))
  {
    if xs == [] {
    } else {
      var n := |xs| - 1;
      var x := xs[n];
      SplitAllShare(starts, ends, lo, hi, xs[..n], d);
      if x.len > 0 { SplitShare(starts, ends, lo, hi, x.off, x.len, d); }
      var ps, qs := SplitAll(starts, xs[..n]), Split(starts, x.off, x.len);
      InConcat(ps, qs, d);
      FlatConcat(In(ps, d), In(qs, d));
      ShareConcat(starts, d, Flat(xs[..n]), Flat(xs[..n]), Range(x.off, x.len), Range(x.off, x.len));
    }
  }

  /** The pieces of domain d are the accesses clipped to that domain. */
  lemma {:induction false} SplitIsCut(starts: seq<int>, ends: seq<int>, lo: int, hi: int, off: int, len: nat, d: nat)
    requires Partition(starts, ends, lo, hi) && lo <= off && off + len <= hi + 1 && d < |starts|
    ensures In(Split(starts, off, len), d) == Cut(Extent(off, len), starts[d], ends[d] + 1)
    decreases len
  {
    if len == 0 {
    } else {
      var t := Room(starts, off, len);
      var o2, l2 := off + t, len - t;
      var p, rest := Piece(Owner(starts, off), Extent(off, t)), Split(starts, o2, l2);
      assert Split(starts, off, len) == [p] + rest;
      InConcat([p], rest, d);
      InOne(p, d);
      SplitIsCut(starts, ends, lo, hi, o2, l2, d);
      OwnerBounds(starts, off);
      CutAtBoundary(starts, ends, lo, hi, off, len, t, o2, l2, d);
    }
  }

  lemma CutAtBoundary(starts: seq<int>, ends: seq<int>, lo: int, hi: int, off: int, len: nat, t: nat, o2: int,
                      l2: nat, d: nat)
    requires Partition(starts, ends, lo, hi) && lo <= off && off + len <= hi + 1 && d < |starts| && len > 0
    requires t == Room(starts, off, len) && o2 == off + t && l2 == len - t
    ensures Cut(Extent(off, len), starts[d], ends[d] + 1) ==
            (if Owner(starts, off) == d then [Extent(off, t)] else []) + Cut(Extent(o2, l2), starts[d], ends[d] + 1)
  {
    OwnerBounds(starts, off);
    var k := Owner(starts, off);
    if k < d { assert starts[k + 1] <= starts[d]; }
    if d < k { assert starts[d + 1] <= starts[k]; }
  }

  lemma {:induction false} SplitAllIsClip(starts: seq<int>, ends: seq<int>, lo: int, hi: int, xs: seq<Extent>, d: nat)
    requires Partition(starts, ends, lo, hi) && InRange(xs, lo, hi) && d < |starts|
    ensures In(SplitAll(starts, xs), d) == Clip(xs, starts[d], ends[d] + 1)
  {
    if xs == [] {
    } else {
      var n := |xs| - 1;
      var x := xs[n];
      SplitAllIsClip(starts, ends, lo, hi, xs[..n], d);
      if x.len > 0 { SplitIsCut(starts, ends, lo, hi, x.off, x.len, d); }
      InConcat(SplitAll(starts, xs[..n]), Split(starts, x.off, x.len), d);
    }
  }

  /** The pieces tile the accesses: no gap, no overlap, nothing reordered. */
  lemma {:induction false} SplitTiles(starts: seq<int>, off: int, len: nat)
    requires |starts| > 0
    ensures Flat(Exts(Split(starts, off, len))) == Range(off, len)
    decreases len
  {
    if len > 0 {
      var t := Room(starts, off, len);
      var o2, l2 := off + t, len - t;
      SplitTiles(starts, o2, l2);
      TilesStep(starts, off, len, t, o2, l2);
      assert Range(off, len) == Range(off, t) + Range(o2, l2);
    } else {
      assert Range(off, len) == [];
    }
  }

  lemma TilesStep(starts: seq<int>, off: int, len: nat, t: nat, o2: int, l2: nat)
    requires |starts| > 0 && len > 0
    requires t == Room(starts, off, len) && o2 == off + t && l2 == len - t
    ensures Flat(Exts(Split(starts, off, len))) == Range(off, t) + Flat(Exts(Split(starts, o2, l2)))
  {
    var p, rest := Piece(Owner(starts, off), Extent(off, t)), Split(starts, o2, l2);
    assert Split(starts, off, len) == [p] + rest;
    ExtsConcat([p], rest);
    assert [p][..0] == [];
    assert Exts([p]) == [p.ext];
    FlatConcat([p.ext], Exts(rest));
    FlatOne(p.ext);
  }

  lemma {:induction false} ExtsConcat(ps: seq<Piece>, qs: seq<Piece>)
    ensures Exts(ps + qs) == Exts(ps) + Exts(qs)
    decreases |qs|
  {
    if qs == [] {
      assert ps + qs == ps;
    } else {
      var n := |qs| - 1;
      ExtsConcat(ps, qs[..n]);
      assert (ps + qs)[..|ps| + n] == ps + qs[..n];
    }
  }

  lemma {:induction false} SplitAllTiles(starts: seq<int>, xs: seq<Extent>)
    requires |starts| > 0
    ensures Flat(Exts(SplitAll(starts, xs))) == Flat(xs)
  {
    if xs == [] {
    } else {
      var n := |xs| - 1;
      SplitAllTiles(starts, xs[..n]);
      SplitTiles(starts, xs[n].off, xs[n].len);
      ExtsConcat(SplitAll(starts, xs[..n]), Split(starts, xs[n].off, xs[n].len));
      FlatConcat(Exts(SplitAll(starts, xs[..n])), Exts(Split(starts, xs[n].off, xs[n].len)));
    }
  }

  /** Every piece is non-empty and lies inside the domain it is sent to. */
  lemma {:induction false} SplitInside(starts: seq<int>, ends: seq<int>, lo: int, hi: int, off: int, len: nat)
    requires Partition(starts, ends, lo, hi) && lo <= off && off + len <= hi + 1
    ensures forall p :: p in Split(starts, off, len) ==>
              p.dom < |starts| && p.ext.len > 0 && off <= p.ext.off && p.ext.End() <= off + len &&
              starts[p.dom] <= p.ext.off && p.ext.End() - 1 <= ends[p.dom]
    decreases len
  {
    if len == 0 {
    } else {
      var t := Room(starts, off, len);
      SplitInside(starts, ends, lo, hi, off + t, len - t);
      OwnerUnique(starts, ends, lo, hi, off, Owner(starts, off));
      RoomOwned(starts, ends, lo, hi, off, len, off + t - 1);
      OwnerUnique(starts, ends, lo, hi, off + t - 1, Owner(starts, off));
    }
  }

  // ---------- The two passes of Calc_my_req ----------

  /** The pieces whose domain is served by rank `r`, in order. */
  function Mine(ps: seq<Piece>, ranklist: seq<nat>, r: nat): seq<Extent> {
    if ps == [] then []
    else
      var n := |ps| - 1;
      Mine(ps[..n], ranklist, r) +
      if ps[n].dom < |ranklist| && ranklist[ps[n].dom] == r then [ps[n].ext] else []
  }

  lemma MineAppend(ps: seq<Piece>, p: Piece, ranklist: seq<nat>, r: nat)
    ensures Mine(ps + [p], ranklist, r) ==
            Mine(ps, ranklist, r) + if p.dom < |ranklist| && ranklist[p.dom] == r then [p.ext] else []
  {
    assert (ps + [p])[..|ps|] == ps;
  }

  lemma {:induction false} MineGrows(ps: seq<Piece>, qs: seq<Piece>, ranklist: seq<nat>, r: nat)
    ensures |Mine(ps, ranklist, r)| <= |Mine(ps + qs, ranklist, r)|
    decreases |qs|
  {
    if qs == [] {
      assert ps + qs == ps;
    } else {
      var n := |qs| - 1;
      MineGrows(ps, qs[..n], ranklist, r);
      assert ps + qs == (ps + qs[..n]) + [qs[n]];
      MineAppend(ps + qs[..n], qs[n], ranklist, r);
    }
  }

  ghost predicate RanksBelow(ranklist: seq<nat>, nprocs: nat) {
    forall i :: 0 <= i < |ranklist| ==> ranklist[i] < nprocs
  }

  /** With distinct aggregator ranks, a rank's pieces are those of its one domain. */
  lemma {:induction false} MineIsIn(ps: seq<Piece>, ranklist: seq<nat>, d: nat)
    requires Distinct(ranklist) && d < |ranklist|
    ensures Mine(ps, ranklist, ranklist[d]) == In(ps, d)
  {
    if ps == [] {
    } else {
      var n := |ps| - 1;
      MineIsIn(ps[..n], ranklist, d);
      var e := ps[n].dom;
      assert e < |ranklist| && e != d ==> ranklist[e] != ranklist[d];
    }
  }

  /** One step of the split: the next piece and what is left. */
  lemma SplitStep(starts: seq<int>, ps: seq<Piece>, off: int, len: nat, t: nat, o2: int, l2: nat)
    requires |starts| > 0 && len > 0
    requires t == Room(starts, off, len) && o2 == off + t && l2 == len - t
    ensures ps + Split(starts, off, len) ==
            (ps + [Piece(Owner(starts, off), Extent(off, t))]) + Split(starts, o2, l2)
  {
    var p := Piece(Owner(starts, off), Extent(off, t));
    assert Split(starts, off, len) == [p] + Split(starts, o2, l2);
    Assoc(ps, [p], Split(starts, o2, l2));
  }

  ghost predicate Counted(count: seq<nat>, ps: seq<Piece>, ranklist: seq<nat>) {
    forall r :: 0 <= r < |count| ==> count[r] == |Mine(ps, ranklist, r)|
  }

  method CountPiece(starts: seq<int>, ends: seq<int>, ranklist: seq<nat>, count: seq<nat>, off: int, len: nat,
                    ghost lo: int, ghost hi: int, ghost ps: seq<Piece>)
    returns (count': seq<nat>, fdLen: nat, next: int, rem: nat, ghost ps': seq<Piece>)
    requires Partition(starts, ends, lo, hi) && |ranklist| == |starts| && RanksBelow(ranklist, |count|)
    requires lo <= off && off + len <= hi + 1 && len > 0
    requires Counted(count, ps, ranklist)
    ensures 0 < fdLen <= len && next == off + fdLen && rem == len - fdLen && |count'| == |count|
    ensures ps' + Split(starts, next, rem) == ps + Split(starts, off, len)
    ensures Counted(count', ps', ranklist)
  {
    var proc;
    proc, fdLen := CalcAggregator(starts, ends, ranklist, off, len, lo, hi);
    next, rem := off + fdLen, len - fdLen;
    var p := Piece(Owner(starts, off), Extent(off, fdLen));
    ps' := ps + [p];
    SplitStep(starts, ps, off, len, fdLen, next, rem);
    count' := count[proc := count[proc] + 1];
    forall r | 0 <= r < |count'| ensures count'[r] == |Mine(ps', ranklist, r)| {
      MineAppend(ps, p, ranklist, r);
    }
  }

  /** The pieces of one access. */
  method CountAccess(x: Extent, starts: seq<int>, ends: seq<int>, ranklist: seq<nat>, count0: seq<nat>,
                     ghost lo: int, ghost hi: int, ghost ps0: seq<Piece>)
    returns (count: seq<nat>)
    requires Partition(starts, ends, lo, hi) && |ranklist| == |starts| && RanksBelow(ranklist, |count0|)
    requires lo <= x.off && x.End() <= hi + 1 && x.len > 0
    requires Counted(count0, ps0, ranklist)
    ensures |count| == |count0|
    ensures Counted(count, ps0 + Split(starts, x.off, x.len), ranklist)
  {
    ghost var goal, ps := ps0 + Split(starts, x.off, x.len), ps0;
    var off, fdLen, rem: nat := x.off, 0, x.len;
    count, fdLen, off, rem, ps := CountPiece(starts, ends, ranklist, count0, off, rem, lo, hi, ps);
    while rem > 0
      invariant lo <= off && off + rem == x.End()
      invariant |count| == |count0| && Counted(count, ps, ranklist)
      invariant ps + Split(starts, off, rem) == goal
    {
      count, fdLen, off, rem, ps := CountPiece(starts, ends, ranklist, count, off, rem, lo, hi, ps);
    }
    assert ps + [] == ps;
  }

  /** First pass: how many pieces of this process's accesses go to each rank. */
  method CountPass(xs: seq<Extent>, starts: seq<int>, ends: seq<int>, ranklist: seq<nat>, nprocs: nat, ghost lo: int,
                   ghost hi: int)
    returns (count: seq<nat>)
    requires Partition(starts, ends, lo, hi) && InRange(xs, lo, hi)
    requires |ranklist| == |starts| && RanksBelow(ranklist, nprocs)
    ensures |count| == nprocs && Counted(count, SplitAll(starts, xs), ranklist)
  {
    count := seq(nprocs, _ => 0);
    for i := 0 to |xs|
      invariant |count| == nprocs && Counted(count, SplitAll(starts, xs[..i]), ranklist)
    {
      SplitAllStep(starts, xs, i);
      if xs[i].len != 0 {
        count := CountAccess(xs[i], starts, ends, ranklist, count, lo, hi, SplitAll(starts, xs[..i]));
      }
    }
    assert xs[..|xs|] == xs;
  }

  lemma SplitAllStep(starts: seq<int>, xs: seq<Extent>, i: nat)
    requires |starts| > 0 && i < |xs|
    ensures SplitAll(starts, xs[..i + 1]) == SplitAll(starts, xs[..i]) + Split(starts, xs[i].off, xs[i].len)
    ensures xs[i].len == 0 ==> SplitAll(starts, xs[..i + 1]) == SplitAll(starts, xs[..i])
  {
    assert xs[..i + 1][..i] == xs[..i];
  }

  // ---------- Second pass: store the pieces ----------

  /** Each rank's array holds the pieces met so far and has room for all of them. */
  ghost predicate Stored(reqs: seq<array<Extent>>, count: seq<nat>, ps: seq<Piece>, all: seq<Piece>, ranklist: seq<nat>)
    reads reqs
  {
    && |reqs| == |count|
    && (forall r :: 0 <= r < |reqs| ==> count[r] == |Mine(ps, ranklist, r)| <= reqs[r].Length)
    && (forall r :: 0 <= r < |reqs| ==> reqs[r].Length == |Mine(all, ranklist, r)|)
    && (forall r :: 0 <= r < |reqs| ==> reqs[r][..count[r]] == Mine(ps, ranklist, r))
  }

  /** Where in the stream rank r's first piece starts; -1 when it has none. */
  function FirstIdx(ps: seq<Piece>, ranklist: seq<nat>, r: nat): int {
    if ps == [] then -1
    else
      var n := |ps| - 1;
      if FirstIdx(ps[..n], ranklist, r) != -1 then FirstIdx(ps[..n], ranklist, r)
      else if ps[n].dom < |ranklist| && ranklist[ps[n].dom] == r then |Flat(Exts(ps[..n]))| else -1
  }

  ghost predicate Indexed(bufIdx: seq<int>, ps: seq<Piece>, ranklist: seq<nat>) {
    forall r :: 0 <= r < |bufIdx| ==> bufIdx[r] == FirstIdx(ps, ranklist, r)
  }

  lemma IndexedAppend(bufIdx: seq<int>, ps: seq<Piece>, p: Piece, ranklist: seq<nat>, proc: nat, curr: nat)
    requires Indexed(bufIdx, ps, ranklist) && proc < |bufIdx|
    requires p.dom < |ranklist| && ranklist[p.dom] == proc && curr == |Flat(Exts(ps))|
    ensures Indexed(if bufIdx[proc] == -1 then bufIdx[proc := curr] else bufIdx, ps + [p], ranklist)
    ensures |Flat(Exts(ps + [p]))| == curr + p.ext.len
  {
    assert (ps + [p])[..|ps|] == ps;
    FlatAppend(Exts(ps), p.ext);
  }

  method StorePiece(starts: seq<int>, ends: seq<int>, ranklist: seq<nat>, reqs: seq<array<Extent>>, count: seq<nat>,
                    bufIdx: seq<int>, curr: nat, off: int, len: nat, ghost lo: int, ghost hi: int,
                    ghost ps: seq<Piece>, ghost all: seq<Piece>, ghost more: seq<Piece>)
    returns (count': seq<nat>, bufIdx': seq<int>, curr': nat, next: int, rem: nat, ghost ps': seq<Piece>)
    requires Partition(starts, ends, lo, hi) && |ranklist| == |starts| && RanksBelow(ranklist, |reqs|)
    requires lo <= off && off + len <= hi + 1 && len > 0
    requires Distinct(reqs) && Stored(reqs, count, ps, all, ranklist)
    requires |bufIdx| == |reqs| && Indexed(bufIdx, ps, ranklist) && curr == |Flat(Exts(ps))|
    requires all == (ps + Split(starts, off, len)) + more
    modifies reqs
    ensures off < next && next + rem == off + len
    ensures ps' + Split(starts, next, rem) == ps + Split(starts, off, len)
    ensures Stored(reqs, count', ps', all, ranklist)
    ensures |bufIdx'| == |reqs| && Indexed(bufIdx', ps', ranklist) && curr' == |Flat(Exts(ps'))|
  {
    var proc, fdLen := CalcAggregator(starts, ends, ranklist, off, len, lo, hi);
    next, rem := off + fdLen, len - fdLen;
    ghost var p := Piece(Owner(starts, off), Extent(off, fdLen));
    ps' := ps + [p];
    SplitStep(starts, ps, off, len, fdLen, next, rem);
    IndexedAppend(bufIdx, ps, p, ranklist, proc, curr);
    bufIdx' := bufIdx;
    if bufIdx[proc] == -1 {
      bufIdx' := bufIdx[proc := curr];
    }
    curr' := curr + fdLen;
    Assoc(ps', Split(starts, next, rem), more);
    count' := StoreAt(reqs, count, proc, Extent(off, fdLen), ranklist, ps, p, all, Split(starts, next, rem) + more);
  }

  /** Append one piece to a rank's array; the first pass left room for it. */
  method StoreAt(reqs: seq<array<Extent>>, count: seq<nat>, proc: nat, ext: Extent, ghost ranklist: seq<nat>,
                 ghost ps: seq<Piece>, ghost p: Piece, ghost all: seq<Piece>, ghost rest: seq<Piece>)
    returns (count': seq<nat>)
    requires proc < |reqs| && p.ext == ext && p.dom < |ranklist| && ranklist[p.dom] == proc
    requires Distinct(reqs) && Stored(reqs, count, ps, all, ranklist)
    requires all == (ps + [p]) + rest
    modifies reqs
    ensures Stored(reqs, count', ps + [p], all, ranklist)
  {
    var l := count[proc];
    MineAppend(ps, p, ranklist, proc);
    MineGrows(ps + [p], rest, ranklist, proc);
    reqs[proc][l] := ext;
    count' := count[proc := l + 1];
    forall r | 0 <= r < |reqs|
      ensures count'[r] == |Mine(ps + [p], ranklist, r)| <= reqs[r].Length
      ensures reqs[r][..count'[r]] == Mine(ps + [p], ranklist, r)
    {
      MineAppend(ps, p, ranklist, r);
      if r != proc {
        assert reqs[r] != reqs[proc];
      } else {
        assert reqs[r][..l + 1] == reqs[r][..l] + [p.ext];
      }
    }
  }

  /** Store the pieces of one access. */
  method StoreAccess(x: Extent, starts: seq<int>, ends: seq<int>, ranklist: seq<nat>, reqs: seq<array<Extent>>,
                     count0: seq<nat>, bufIdx0: seq<int>, curr0: nat, ghost lo: int, ghost hi: int,
                     ghost ps0: seq<Piece>, ghost all: seq<Piece>, ghost more: seq<Piece>)
    returns (count: seq<nat>, bufIdx: seq<int>, curr: nat)
    requires Partition(starts, ends, lo, hi) && |ranklist| == |starts| && RanksBelow(ranklist, |reqs|)
    requires lo <= x.off && x.End() <= hi + 1 && x.len > 0
    requires Distinct(reqs) && Stored(reqs, count0, ps0, all, ranklist)
    requires |bufIdx0| == |reqs| && Indexed(bufIdx0, ps0, ranklist) && curr0 == |Flat(Exts(ps0))|
    requires all == (ps0 + Split(starts, x.off, x.len)) + more
    modifies reqs
    ensures Stored(reqs, count, ps0 + Split(starts, x.off, x.len), all, ranklist)
    ensures |bufIdx| == |reqs| && Indexed(bufIdx, ps0 + Split(starts, x.off, x.len), ranklist)
    ensures curr == |Flat(Exts(ps0 + Split(starts, x.off, x.len)))|
  {
    ghost var goal, ps := ps0 + Split(starts, x.off, x.len), ps0;
    var off, rem;
    count, bufIdx, curr, off, rem, ps := StorePiece(starts, ends, ranklist, reqs, count0, bufIdx0, curr0, x.off, x.len,
      lo, hi, ps, all, more);
    while rem > 0
      invariant lo <= off && off + rem == x.End()
      invariant Stored(reqs, count, ps, all, ranklist)
      invariant |bufIdx| == |reqs| && Indexed(bufIdx, ps, ranklist) && curr == |Flat(Exts(ps))|
      invariant ps + Split(starts, off, rem) == goal
    {
      count, bufIdx, curr, off, rem, ps := StorePiece(starts, ends, ranklist, reqs, count, bufIdx, curr, off, rem,
        lo, hi, ps, all, more);
    }
    assert ps + [] == ps;
  }

  /** Allocate, for each rank, an array of exactly the counted size. */
  method Allocate(count: seq<nat>) returns (reqs: seq<array<Extent>>)
    ensures |reqs| == |count| && Distinct(reqs)
    ensures forall r :: 0 <= r < |reqs| ==> fresh(reqs[r]) && reqs[r].Length == count[r]
  {
    reqs := [];
    for i := 0 to |count|
      invariant |reqs| == i && Distinct(reqs)
      invariant forall r :: 0 <= r < i ==> fresh(reqs[r]) && reqs[r].Length == count[r]
    {
      var a := new Extent[count[i]](_ => Extent(0, 0));
      reqs := reqs + [a];
    }
  }

  /** Both passes.  The second one fills exactly what the first one allocated. */
  method CalcMyReq(xs: seq<Extent>, starts: seq<int>, ends: seq<int>, ranklist: seq<nat>, nprocs: nat, ghost lo: int,
                   ghost hi: int)
    returns (reqs: seq<array<Extent>>, bufIdx: seq<int>)
    requires Partition(starts, ends, lo, hi) && InRange(xs, lo, hi)
    requires |ranklist| == |starts| && RanksBelow(ranklist, nprocs)
    ensures |reqs| == |bufIdx| == nprocs
    ensures forall r :: 0 <= r < nprocs ==> reqs[r][..] == Mine(SplitAll(starts, xs), ranklist, r)
    ensures Indexed(bufIdx, SplitAll(starts, xs), ranklist)
  {
    var counts := CountPass(xs, starts, ends, ranklist, nprocs, lo, hi);
    reqs := Allocate(counts);
    bufIdx := seq(nprocs, _ => -1);
    var count: seq<nat> := seq(nprocs, _ => 0);
    var curr := 0;
    ghost var all := SplitAll(starts, xs);
    for i := 0 to |xs|
      invariant Stored(reqs, count, SplitAll(starts, xs[..i]), all, ranklist)
      invariant |bufIdx| == nprocs && Indexed(bufIdx, SplitAll(starts, xs[..i]), ranklist)
      invariant curr == |Flat(Exts(SplitAll(starts, xs[..i])))|
    {
      SplitAllStep(starts, xs, i);
      if xs[i].len != 0 {
        ghost var more := SplitRest(starts, xs, i + 1);
        count, bufIdx, curr := StoreAccess(xs[i], starts, ends, ranklist, reqs, count, bufIdx, curr,
          lo, hi, SplitAll(starts, xs[..i]), all, more);
      }
    }
    assert xs[..|xs|] == xs;
    forall r | 0 <= r < nprocs ensures reqs[r][..] == Mine(all, ranklist, r) {
      assert reqs[r][..] == reqs[r][..count[r]];
    }
  }

  lemma {:induction false} SplitRest(starts: seq<int>, xs: seq<Extent>, i: nat) returns (more: seq<Piece>)
    requires |starts| > 0 && i <= |xs|
    ensures SplitAll(starts, xs) == SplitAll(starts, xs[..i]) + more
    decreases |xs|
  {
    if i == |xs| {
      assert xs[..i] == xs;
      more := [];
    } else {
      var n := |xs| - 1;
      var m := SplitRest(starts, xs[..n], i);
      assert xs[..n][..i] == xs[..i];
      more := m + Split(starts, xs[n].off, xs[n].len);
    }
  }
}
