/**
 The strided read of the GridFTP driver (`ADIOI_GRIDFTP_ReadDiscontig`): one walk over the
 flattened filetype finds how much of the file to fetch, the fetch takes it all, and a
 second walk copies the wanted blocks out of it.
 */
module GridFtp {
  import opened Extents
  import opened FlatTypes

  /** What MPI asks of a filetype: no negative displacement; and it has data. */
  ghost predicate Filetype(ft: FlatType) {
    Proper(ft) && ft.extent >= 0 && forall i :: 0 <= i < |ft.indices| ==> ft.indices[i] >= 0
  }

  /** Blocks in order and apart, also from one repetition to the next. */
  ghost predicate BlocksApart(ft: FlatType)
    requires Proper(ft)
  {
    && (forall i, j :: 0 <= i < j < |ft.lens| ==> ft.indices[i] + ft.lens[i] <= ft.indices[j])
    && (forall i, j :: 0 <= i < |ft.lens| && 0 <= j < |ft.lens| ==>
          ft.indices[i] + ft.lens[i] <= ft.extent + ft.indices[j])
  }

  /** The number of data bytes before block i of repetition n. */
  function Before(ft: FlatType, n: nat, i: nat): nat
    requires i <= |ft.lens|
  {
    n * Size(ft) + Pre(ft.lens, i)
  }

  /** A walk for `total` bytes gets to block i of repetition n. */
  ghost predicate Reached(ft: FlatType, total: nat, n: nat, i: nat)
    requires Proper(ft)
  {
    i < |ft.lens| && Before(ft, n, i) < total
  }

  /** Where the part of that block it takes ends. */
  function TakenTo(ft: FlatType, total: nat, n: nat, i: nat): int
    requires |ft.indices| == |ft.lens| && i < |ft.lens|
  {
    n * ft.extent + ft.indices[i] + Min(ft.lens[i], total - Before(ft, n, i))
  }

  /** `e` is the greatest end of the blocks before block i of repetition n, or 0. */
  ghost predicate Greatest(ft: FlatType, total: nat, n: nat, i: nat, e: int)
    requires Proper(ft)
  {
    && (forall n': nat,
        i': nat :: (n' < n || (n' == n && i' < i)) && Reached(ft, total, n', i') ==> TakenTo(ft, total, n', i') <= e)
    && (e == 0 || exists n': nat, i': nat :: Reached(ft, total, n', i') && TakenTo(ft, total, n', i') == e)
  }

  /** `e` is the greatest end of all blocks the walk takes, or 0. */
  ghost predicate IsExtent(ft: FlatType, total: nat, e: int)
    requires Proper(ft)
  {
    && (forall n: nat, i: nat :: Reached(ft, total, n, i) ==> TakenTo(ft, total, n, i) <= e)
    && (e == 0 || exists n: nat, i: nat :: Reached(ft, total, n, i) && TakenTo(ft, total, n, i) == e)
  }

  lemma PreStep(ft: FlatType, n: nat, i: nat)
    requires i < |ft.lens|
    ensures Before(ft, n, i + 1) == Before(ft, n, i) + ft.lens[i]
  {
  }

  lemma NextRepetition(ft: FlatType, n: nat)
    ensures Before(ft, n, |ft.lens|) == Before(ft, n + 1, 0) == Before(ft, n, 0) + Size(ft)
  {
    assert (n + 1) * Size(ft) == n * Size(ft) + Size(ft);
  }

  lemma {:induction false} BeforeMonotone(ft: FlatType, n: nat, i: nat, n': nat, i': nat)
    requires i <= |ft.lens| && i' <= |ft.lens| && (n < n' || (n == n' && i <= i'))
    ensures Before(ft, n, i) <= Before(ft, n', i')
    decreases n' - n
  {
    if n == n' {
      PreMonotone(ft.lens, i, i');
    } else {
      PreMonotone(ft.lens, i, |ft.lens|);
      NextRepetition(ft, n);
      BeforeMonotone(ft, n + 1, 0, n', i');
    }
  }

  /** One repetition of the first walk. */
  method ExtentPass(ft: FlatType, total: nat, n: nat, boff0: nat, extent0: int) returns (boff: nat, extent: int)
    requires Filetype(ft) && boff0 == Before(ft, n, 0) < total && Greatest(ft, total, n, 0, extent0)
    ensures boff == Min(total, Before(ft, n + 1, 0)) && extent >= extent0
    ensures if boff < total then Greatest(ft, total, n + 1, 0, extent) else IsExtent(ft, total, extent)
  {
    hide Before, TakenTo, Greatest, Reached, IsExtent;
    boff, extent := boff0, extent0;
    var i := 0;
    while i < |ft.lens| && boff < total
      invariant 0 <= i <= |ft.lens| && boff == Min(total, Before(ft, n, i))
      invariant Greatest(ft, total, n, i, extent) && extent >= extent0
    {
      PreStep(ft, n, i);
      var blklen := if boff + ft.lens[i] < total then ft.lens[i] else total - boff;
      var e := n * ft.extent + ft.indices[i] + blklen;
      GreatestStep(ft, total, n, i, extent, e, blklen);
      boff := boff + blklen;
      extent := Max(extent, e);
      i := i + 1;
    }
    NextRepetition(ft, n);
    GreatestEnd(ft, total, n, i, extent);
  }

  lemma GreatestStep(ft: FlatType, total: nat, n: nat, i: nat, m: int, e: int, blklen: nat)
    requires Proper(ft) && i < |ft.lens| && Greatest(ft, total, n, i, m) && Before(ft, n, i) < total
    requires blklen == Min(ft.lens[i], total - Before(ft, n, i)) && e == n * ft.extent + ft.indices[i] + blklen
    ensures Greatest(ft, total, n, i + 1, Max(m, e))
  {
    assert Reached(ft, total, n, i) && TakenTo(ft, total, n, i) == e;
  }

  lemma GreatestEnd(ft: FlatType, total: nat, n: nat, i: nat, m: int)
    requires Proper(ft) && i <= |ft.lens| && Greatest(ft, total, n, i, m)
    requires i == |ft.lens| || Before(ft, n, i) >= total
    ensures Before(ft, n, i) <= Before(ft, n + 1, 0)
    ensures if Before(ft, n + 1, 0) < total then Greatest(ft, total, n + 1, 0, m) else IsExtent(ft, total, m)
  {
    hide TakenTo;
    NextRepetition(ft, n);
    BeforeMonotone(ft, n, i, n + 1, 0);
    if Before(ft, n, i) >= total {
      forall n': nat, i': nat | Reached(ft, total, n', i') ensures n' < n || (n' == n && i' < i) {
        if !(n' < n || (n' == n && i' < i)) { BeforeMonotone(ft, n, i, n', i'); }
      }
    }
  }

  /** The first walk: the greatest end of the blocks the read takes. */
  method ExtentWalk(ft: FlatType, total: nat) returns (extent: int)
    requires Filetype(ft)
    ensures extent >= 0 && IsExtent(ft, total, extent)
  {
    hide Before, Greatest, IsExtent;
    var boff, n := 0, 0;
    extent := 0;
    NoneYet(ft, total);
    while boff < total
      invariant 0 <= boff <= total && 0 <= n && boff == Min(total, Before(ft, n, 0)) && extent >= 0
      invariant if boff < total then Greatest(ft, total, n, 0, extent) else IsExtent(ft, total, extent)
      decreases total - boff
    {
      NextRepetition(ft, n);
      boff, extent := ExtentPass(ft, total, n, boff, extent);
      n := n + 1;
    }
  }

  lemma NoneYet(ft: FlatType, total: nat)
    requires Proper(ft)
    ensures Before(ft, 0, 0) == 0 && if total > 0 then Greatest(ft, total, 0, 0, 0) else IsExtent(ft, total, 0)
  {
  }

  // ---------- The second walk ----------

  /** Every byte the read takes lies inside the extent, from its start on. */
  lemma {:induction false} InsideExtent(ft: FlatType, total: nat, extent: int, k: nat)
    requires Filetype(ft) && IsExtent(ft, total, extent) && k < total
    ensures 0 <= Addr(ft, k) < extent
  {
    hide Addr, Before, TakenTo;
    var n, i, w := Locate(ft, k);
    AddrOf(ft, n, i, w, k);
    assert Reached(ft, total, n, i);
    TakenHas(ft, total, n, i, w);
  }

  lemma AddrOf(ft: FlatType, n: nat, i: nat, w: nat, k: nat)
    requires Proper(ft) && i < |ft.lens| && w < ft.lens[i] && k == Before(ft, n, i) + w
    ensures Addr(ft, k) == n * ft.extent + ft.indices[i] + w
  {
    AddrAt(ft, n, i, w, k);
  }

  lemma TakenHas(ft: FlatType, total: nat, n: nat, i: nat, w: nat)
    requires Filetype(ft) && i < |ft.lens| && w < ft.lens[i] && Before(ft, n, i) + w < total
    ensures 0 <= n * ft.extent + ft.indices[i] + w < TakenTo(ft, total, n, i)
  {
    hide Before;
    ProductNonNegative(n, ft.extent);
  }

  lemma ProductNonNegative(n: nat, e: int)
    requires e >= 0
    ensures n * e >= 0
  {
  }

  /** The repetition, block and byte in the block where data byte k lies. */
  lemma {:induction false} Locate(ft: FlatType, k: nat) returns (n: nat, i: nat, w: nat)
    requires Proper(ft)
    ensures i < |ft.lens| && w < ft.lens[i] && k == Before(ft, n, i) + w
    decreases k
  {
    if k < Size(ft) {
      i, w := LocateIn(ft, k, |ft.lens|);
      n := 0;
    } else {
      n, i, w := Locate(ft, k - Size(ft));
      assert (n + 1) * Size(ft) == n * Size(ft) + Size(ft);
      n := n + 1;
    }
  }

  lemma {:induction false} LocateIn(ft: FlatType, k: nat, j: nat) returns (i: nat, w: nat)
    requires j <= |ft.lens| && k < Pre(ft.lens, j)
    ensures i < j && w < ft.lens[i] && k == Pre(ft.lens, i) + w
    decreases j
  {
    if k < Pre(ft.lens, j - 1) {
      i, w := LocateIn(ft, k, j - 1);
    } else {
      i, w := j - 1, k - Pre(ft.lens, j - 1);
    }
  }

  /** The first `boff` bytes of the buffer are there. */
  ghost predicate Gathered(buf: seq<Byte>, tmp: seq<Byte>, ft: FlatType, boff: nat)
    requires Proper(ft)
  {
    boff <= |buf| && forall k :: 0 <= k < boff ==> 0 <= Addr(ft, k) < |tmp| && buf[k] == tmp[Addr(ft, k)]
  }

  /** One repetition of the second walk. */
  method ScatterPass(ft: FlatType, n: nat, boff0: nat, tmp: array<Byte>, buf: array<Byte>) returns (boff: nat)
    requires Filetype(ft) && boff0 == Before(ft, n, 0) < buf.Length && buf != tmp
    requires IsExtent(ft, buf.Length, tmp.Length)
    requires Gathered(buf[..], tmp[..], ft, boff0)
    modifies buf
    ensures boff == Min(buf.Length, Before(ft, n + 1, 0)) && Gathered(buf[..], tmp[..], ft, boff)
  {
    hide Before, Gathered, IsExtent, Addr, Proper;
    boff := boff0;
    var total := buf.Length;
    var i := 0;
    FileProper(ft);
    while i < |ft.lens| && boff < total
      invariant 0 <= i <= |ft.lens| && boff == Min(total, Before(ft, n, i))
      invariant Gathered(buf[..], tmp[..], ft, boff)
    {
      PreStep(ft, n, i);
      var blklen := if boff + ft.lens[i] < total then ft.lens[i] else total - boff;
      if blklen > 0 {
        var goff := n * ft.extent + ft.indices[i];
        BlockPlaces(ft, total, tmp.Length, n, i, boff, blklen, goff);
        ghost var was := buf[..];
        Memcpy(buf, boff, tmp, goff, blklen);
        GatheredMore(was, buf[..], tmp[..], ft, boff, blklen, goff);
        boff := boff + blklen;
      }
      i := i + 1;
    }
    NextRepetition(ft, n);
    BeforeMonotone(ft, n, i, n + 1, 0);
  }

  lemma FileProper(ft: FlatType)
    requires Filetype(ft)
    ensures Proper(ft) && |ft.indices| == |ft.lens| > 0
  {
  }

  /** The block's bytes are the next data bytes, and they lie inside what was fetched. */
  lemma BlockPlaces(ft: FlatType, total: nat, extent: nat, n: nat, i: nat, boff: nat, blklen: nat, goff: int)
    requires Filetype(ft) && IsExtent(ft, total, extent) && i < |ft.lens| && boff == Before(ft, n, i)
    requires 0 < blklen <= ft.lens[i] && boff + blklen <= total && goff == n * ft.extent + ft.indices[i]
    ensures forall k :: boff <= k < boff + blklen ==> Addr(ft, k) == goff + (k - boff)
    ensures 0 <= goff && goff + blklen <= extent
  {
    forall k | boff <= k < boff + blklen ensures Addr(ft, k) == goff + (k - boff) {
      AddrAt(ft, n, i, k - boff, k);
    }
    InsideExtent(ft, total, extent, boff);
    InsideExtent(ft, total, extent, boff + blklen - 1);
    assert Addr(ft, boff) == goff;
  }

  lemma GatheredMore(was: seq<Byte>, now: seq<Byte>, tmp: seq<Byte>, ft: FlatType, boff: nat, blklen: nat, goff: int)
    requires Proper(ft) && Gathered(was, tmp, ft, boff) && |now| == |was| && boff + blklen <= |was|
    requires 0 <= goff && goff + blklen <= |tmp|
    requires forall k :: boff <= k < boff + blklen ==> Addr(ft, k) == goff + (k - boff)
    requires forall i :: 0 <= i < |now| ==>
               now[i] == if boff <= i < boff + blklen then tmp[goff + (i - boff)] else was[i]
    ensures Gathered(now, tmp, ft, boff + blklen)
  {
    hide Addr, Proper;
  }

  method ScatterWalk(ft: FlatType, tmp: array<Byte>, buf: array<Byte>)
    requires Filetype(ft) && buf != tmp && IsExtent(ft, buf.Length, tmp.Length)
    modifies buf
    ensures Gathered(buf[..], tmp[..], ft, buf.Length)
  {
    hide Before, Gathered, IsExtent, Addr, Proper;
    var boff, n := 0, 0;
    FileProper(ft);
    GatheredNone(buf[..], tmp[..], ft);
    while boff < buf.Length
      invariant 0 <= boff <= buf.Length && 0 <= n && boff == Min(buf.Length, Before(ft, n, 0))
      invariant Gathered(buf[..], tmp[..], ft, boff)
      decreases buf.Length - boff
    {
      NextRepetition(ft, n);
      SizePositive(ft);
      boff := ScatterPass(ft, n, boff, tmp, buf);
      n := n + 1;
    }
  }

  lemma SizePositive(ft: FlatType)
    requires Proper(ft)
    ensures Size(ft) > 0
  {
  }

  lemma GatheredNone(buf: seq<Byte>, tmp: seq<Byte>, ft: FlatType)
    requires Proper(ft)
    ensures Gathered(buf, tmp, ft, 0) && Before(ft, 0, 0) == 0
  {
  }

  // ---------- The whole read ----------

  datatype Outcome = Done | ExtentError

  /** Is the extent too small for the bytes asked for?  Only if every block taken ends
      below that number. */
  ghost predicate TooSmall(ft: FlatType, total: nat)
    requires Proper(ft)
  {
    total > 0 && forall n: nat, i: nat :: Reached(ft, total, n, i) ==> TakenTo(ft, total, n, i) < total
  }

  method ReadDiscontig(ft: FlatType, start: int, image: Image, buf: array<Byte>) returns (r: Outcome)
    requires Filetype(ft)
    modifies buf
    ensures r == ExtentError <==> TooSmall(ft, buf.Length)
    ensures r == ExtentError ==> buf[..] == old(buf[..])
    ensures r == Done ==> forall k :: 0 <= k < buf.Length ==> buf[k] == image(start + Addr(ft, k))
  {
    hide Addr, TakenTo, Reached, IsExtent, TooSmall;
    var extent := ExtentWalk(ft, buf.Length);
    ExtentCheck(ft, buf.Length, extent);
    if extent < buf.Length {
      return ExtentError;
    }
    var tmp := new Byte[extent];
    for i := 0 to extent
      invariant forall k :: 0 <= k < i ==> tmp[k] == image(start + k)
      invariant buf[..] == old(buf[..])
    {
      tmp[i] := image(start + i);
    }
    ScatterWalk(ft, tmp, buf);
    r := Done;
  }

  lemma ExtentCheck(ft: FlatType, total: nat, extent: int)
    requires Proper(ft) && extent >= 0 && IsExtent(ft, total, extent)
    ensures extent < total <==> TooSmall(ft, total)
  {
    if extent < total {
      forall n: nat, i: nat | Reached(ft, total, n, i) ensures TakenTo(ft, total, n, i) < total { }
    } else if total > 0 {
      var n: nat, i: nat :| Reached(ft, total, n, i) && TakenTo(ft, total, n, i) == extent;
    }
  }

  /** With blocks in order and apart the places of the data bytes grow ... */
  lemma {:induction false} AddrGrows(ft: FlatType, k: nat)
    requires Filetype(ft) && BlocksApart(ft)
    ensures Addr(ft, k) >= k
    ensures Addr(ft, k + 1) > Addr(ft, k)
    decreases k
  {
    AddrNext(ft, k);
    if k == 0 {
      FirstAddr(ft);
    } else {
      AddrGrows(ft, k - 1);
    }
  }

  lemma FirstAddr(ft: FlatType)
    requires Filetype(ft)
    ensures Addr(ft, 0) >= 0
  {
    var n, i, w := Locate(ft, 0);
    AddrAt(ft, n, i, w, 0);
  }

  lemma AddrNext(ft: FlatType, k: nat)
    requires Filetype(ft) && BlocksApart(ft)
    ensures Addr(ft, k + 1) > Addr(ft, k)
  {
    hide Addr;
    var n, i, w := Locate(ft, k);
    var n', i', w' := Locate(ft, k + 1);
    AddrAt(ft, n, i, w, k);
    AddrAt(ft, n', i', w', k + 1);
    LaterBlock(ft, n, i, w, n', i', w');
  }

  lemma LaterBlock(ft: FlatType, n: nat, i: nat, w: nat, n': nat, i': nat, w': nat)
    requires Filetype(ft) && BlocksApart(ft) && i < |ft.lens| && i' < |ft.lens| && w < ft.lens[i] && w' < ft.lens[i']
    requires Before(ft, n', i') + w' == Before(ft, n, i) + w + 1
    ensures n * ft.extent + ft.indices[i] + w < n' * ft.extent + ft.indices[i'] + w'
  {
    PreStep(ft, n, i);
    PreStep(ft, n', i');
    if n' < n || (n' == n && i' < i) {
      BeforeMonotone(ft, n', i' + 1, n, i);
    } else if n < n' {
      Repetitions(ft.extent, n, n');
    }
  }

  lemma {:induction false} Repetitions(e: int, n: nat, n': nat)
    requires e >= 0 && n < n'
    ensures n * e + e <= n' * e
    decreases n' - n
  {
    assert (n + 1) * e == n * e + e;
    if n + 1 < n' { Repetitions(e, n + 1, n'); }
  }

  /** ... so the extent is never too small. */
  lemma {:induction false} ExtentSuffices(ft: FlatType, total: nat)
    requires Filetype(ft) && BlocksApart(ft)
    ensures !TooSmall(ft, total)
  {
    if total > 0 {
      var k := total - 1;
      AddrGrows(ft, k);
      var n, i, w := Locate(ft, k);
      AddrAt(ft, n, i, w, k);
      assert Reached(ft, total, n, i) && TakenTo(ft, total, n, i) >= total;
    }
  }

  /** Overlapping blocks, legal in a filetype used for reading, can make it so: two blocks
      of 4 bytes at 0, repeated every 4 bytes, and 8 bytes asked for. */
  lemma {:induction false} OverlapTooSmall()
    ensures var ft := FlatType([0, 0], [4, 4], 4); Filetype(ft) && TooSmall(ft, 8)
  {
    var ft := FlatType([0, 0], [4, 4], 4);
    assert Pre(ft.lens, 0) == 0 && Pre(ft.lens, 1) == 4 && Pre(ft.lens, 2) == 8;
    forall n: nat, i: nat | Reached(ft, 8, n, i) ensures TakenTo(ft, 8, n, i) < 8 {
      assert n == 0;
    }
  }
}
