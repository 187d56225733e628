/**
 Windowed consumption of request lists, as in the round loop of `ADIOI_Exch_and_write`:
 in each round the aggregator takes from every process the requests that fall into the
 window [off, off + size), possibly only the front part of the last one.
 */
module Windows {
  import opened Extents

  /** Cursor state of one process at file offset `b`: the requests before `ptr` are done,
      `partial` bytes of request `ptr` are done, later requests are untouched.  `cur` is
      the list as modified in place, `orig` the list as received. */
  ghost predicate At(cur: seq<Extent>, orig: seq<Extent>, ptr: nat, partial: nat, b: int) {
    && |cur| == |orig| && ptr <= |orig|
    && (forall j :: 0 <= j < ptr ==> orig[j].End() <= b)
    && (forall j :: ptr < j < |orig| ==> cur[j] == orig[j] && b <= orig[j].off)
    && (ptr == |orig| ==> partial == 0)
    && (ptr < |orig| ==> Front(cur[ptr], orig[ptr], partial, b))
  }

  ghost predicate Front(c: Extent, o: Extent, partial: nat, b: int) {
    && c.End() == o.End() && o.off <= c.off
    && if partial > 0 then c.off + partial == b && partial < c.len else c == o && b <= o.off
  }

  /** The pieces received in a round that took `count` requests from `start` on; of the
      last one only `partial` bytes, if that is not zero. */
  function Pieces(cur: seq<Extent>, start: nat, count: nat, partial: nat): seq<Extent>
    requires start + count <= |cur|
  {
    seq(count, t requires 0 <= t < count =>
      if t == count - 1 && partial > 0 then Extent(cur[start + t].off, partial) else cur[start + t])
  }

  /** Loop state inside a round over [lo, hi): requests start..ptr - 1 were taken whole,
      and their buffer positions are in `ms`. */
  ghost predicate Inside(cs: seq<Extent>, ms: seq<int>, orig: seq<Extent>, start: nat, ptr: nat, partial: nat,
                         lo: int, hi: int)
  {
    && |cs| == |ms| == |orig| && start <= ptr <= |orig|
    && (forall j :: 0 <= j < ptr ==> orig[j].End() <= hi)
    && (forall j :: ptr < j < |orig| ==> cs[j] == orig[j] && lo <= orig[j].off)
    && (ptr == |orig| ==> partial == 0)
    && (ptr < |orig| ==> Front(cs[ptr], orig[ptr], partial, lo))
    && (ptr > start ==> partial == 0)
    && Placed(cs, ms, start, ptr, lo, hi)
    && cs[start..ptr] == Clip(orig[..ptr], lo, hi)
  }

  /** Requests a..b - 1 have buffer positions equal to file offset minus window start. */
  ghost predicate Placed(cs: seq<Extent>, ms: seq<int>, a: nat, b: nat, lo: int, hi: int)
    requires |cs| == |ms| && b <= |cs|
  {
    forall t :: a <= t < b ==> ms[t] == cs[t].off - lo && lo <= cs[t].off < hi
  }

  /** The state after the round. */
  ghost predicate Done(cs: seq<Extent>, ms: seq<int>, orig: seq<Extent>, start: nat, count: nat, ptr: nat,
                       partial: nat, lo: int, hi: int)
  {
    && |cs| == |ms| == |orig| && start + count <= |cs|
    && At(cs, orig, ptr, partial, hi)
    && Pieces(cs, start, count, partial) == Clip(orig, lo, hi)
    && Placed(cs, ms, start, start + count, lo, hi)
    && (partial > 0 ==> count > 0 && start + count == ptr + 1)
  }

  lemma TakeWhole(cs: seq<Extent>, ms: seq<int>, cs': seq<Extent>, ms': seq<int>, orig: seq<Extent>, start: nat,
                  ptr: nat, q: nat, partial: nat, lo: int, hi: int, c: Extent)
    requires Inside(cs, ms, orig, start, ptr, partial, lo, hi) && ptr < |orig| && lo < hi && q == ptr + 1
    requires Ordered(orig) && Positive(orig)
    requires c.off == Max(orig[ptr].off, lo) && c.End() == orig[ptr].End() && c.len > 0 && c.End() <= hi
    requires cs' == cs[ptr := c] && ms' == ms[ptr := c.off - lo]
    ensures Inside(cs', ms', orig, start, q, 0, lo, hi) && cs'[start..q] == cs[start..ptr] + [c]
  {
    ClipStep(orig, ptr, q, c, lo, hi, c.len);
    assert cs'[start..q] == cs[start..ptr] + [c];
    assert q < |orig| ==> Front(cs'[q], orig[q], 0, lo);
    assert Placed(cs', ms', start, q, lo, hi);
  }

  lemma TakePart(cs: seq<Extent>, ms: seq<int>, cs': seq<Extent>, ms': seq<int>, orig: seq<Extent>, start: nat,
                 ptr: nat, q: nat, partial: nat, lo: int, hi: int, c: Extent, p: nat, cnt: nat)
    requires Inside(cs, ms, orig, start, ptr, partial, lo, hi) && ptr < |orig| && lo < hi && q == ptr + 1
    requires Ordered(orig) && Positive(orig)
    requires c.off == Max(orig[ptr].off, lo) && c.End() == orig[ptr].End() && c.off < hi < c.End()
    requires p == hi - c.off && start + cnt == q
    requires cs' == cs[ptr := c] && ms' == ms[ptr := c.off - lo]
    ensures Done(cs', ms', orig, start, cnt, ptr, p, lo, hi)
    ensures Clip(orig, lo, hi) == cs[start..ptr] + [Extent(c.off, p)]
    ensures forall j :: ptr < j < |orig| ==> hi <= orig[j].off
  {
    ClipStep(orig, ptr, q, c, lo, hi, p);
    forall j | ptr < j < |orig| ensures hi <= orig[j].off { assert orig[ptr].End() <= orig[j].off; }
    ClipEnd(orig, q, lo, hi);
    PiecesPart(cs, cs', start, ptr, c, p, cnt);
    assert Placed(cs', ms', start, start + cnt, lo, hi);
    assert At(cs', orig, ptr, p, hi);
  }

  lemma PiecesPart(cs: seq<Extent>, cs': seq<Extent>, start: nat, ptr: nat, c: Extent, p: nat, cnt: nat)
    requires start <= ptr < |cs| && cs' == cs[ptr := c] && start + cnt == ptr + 1 && p > 0
    ensures Pieces(cs', start, cnt, p) == cs[start..ptr] + [Extent(c.off, p)]
  {
  }

  lemma StopHere(cs: seq<Extent>, ms: seq<int>, orig: seq<Extent>, start: nat, ptr: nat, partial: nat, lo: int,
                 hi: int, cnt: nat)
    requires Inside(cs, ms, orig, start, ptr, partial, lo, hi) && lo < hi && start + cnt == ptr
    requires Ordered(orig) && Positive(orig)
    requires ptr < |orig| ==> hi <= Max(orig[ptr].off, lo)
    ensures partial == 0
    ensures Done(cs, ms, orig, start, cnt, ptr, partial, lo, hi) && Clip(orig, lo, hi) == cs[start..ptr]
  {
    hide Flat, Clip;
    forall j | ptr <= j < |orig| ensures hi <= orig[j].off {
      if ptr < j { assert orig[ptr].End() <= orig[j].off; }
    }
    ClipEnd(orig, ptr, lo, hi);
    StopPieces(cs, start, cnt, ptr, partial);
    assert At(cs, orig, ptr, partial, hi);
  }

  lemma StopPieces(cs: seq<Extent>, start: nat, cnt: nat, ptr: nat, partial: nat)
    requires start + cnt == ptr <= |cs| && partial == 0
    ensures Pieces(cs, start, cnt, partial) == cs[start..ptr]
  {
  }

  ghost predicate Loop(more: bool, cs: seq<Extent>, ms: seq<int>, orig: seq<Extent>, start: nat, count: nat,
                       ptr: nat, partial: nat, recvSize: nat, lo: int, hi: int)
  {
    if more then
      Inside(cs, ms, orig, start, ptr, partial, lo, hi) && start + count == ptr && recvSize == |Flat(cs[start..ptr])|
    else
      Done(cs, ms, orig, start, count, ptr, partial, lo, hi) && recvSize == |Flat(Clip(orig, lo, hi))|
  }

  /** A request that ends inside the window is taken whole. */
  lemma LoopWhole(cs: seq<Extent>, ms: seq<int>, cs': seq<Extent>, ms': seq<int>, orig: seq<Extent>, start: nat,
                  cnt: nat, cnt': nat, ptr: nat, q: nat, partial: nat, recv: nat, recv': nat, lo: int, hi: int,
                  c: Extent)
    requires Loop(true, cs, ms, orig, start, cnt, ptr, partial, recv, lo, hi)
    requires Ordered(orig) && Positive(orig) && ptr < |orig| && lo < hi
    requires c.off == Max(orig[ptr].off, lo) && c.End() == orig[ptr].End() && c.len > 0 && c.off + c.len <= hi
    requires cs' == cs[ptr := c] && ms' == ms[ptr := c.off - lo]
    requires q == ptr + 1 && cnt' == cnt + 1 && recv' == recv + c.len
    ensures Loop(true, cs', ms', orig, start, cnt', q, 0, recv', lo, hi)
  {
    TakeWhole(cs, ms, cs', ms', orig, start, ptr, q, partial, lo, hi, c);
    FlatAppend(cs[start..ptr], c);
  }

  /** A request that crosses the window's end is taken in part, and the round is over. */
  lemma LoopPart(cs: seq<Extent>, ms: seq<int>, cs': seq<Extent>, ms': seq<int>, orig: seq<Extent>, start: nat,
                 cnt: nat, cnt': nat, ptr: nat, partial: nat, p: nat, recv: nat, recv': nat, lo: int, hi: int,
                 c: Extent)
    requires Loop(true, cs, ms, orig, start, cnt, ptr, partial, recv, lo, hi)
    requires Ordered(orig) && Positive(orig) && ptr < |orig| && lo < hi
    requires c.off == Max(orig[ptr].off, lo) && c.End() == orig[ptr].End() && c.off < hi < c.off + c.len
    requires cs' == cs[ptr := c] && ms' == ms[ptr := c.off - lo]
    requires p == hi - c.off && cnt' == cnt + 1 && recv' == recv + p
    ensures Loop(false, cs', ms', orig, start, cnt', ptr, p, recv', lo, hi)
    ensures forall j :: ptr < j < |cs'| ==> hi <= cs'[j].off
  {
    TakePart(cs, ms, cs', ms', orig, start, ptr, ptr + 1, partial, lo, hi, c, p, cnt');
    FlatAppend(cs[start..ptr], Extent(c.off, p));
  }

  /** What is left of a request of which `partial` bytes were received before. */
  function Rest(c: Extent, partial: nat): Extent
    requires partial < c.len || partial == 0
  {
    if partial != 0 then Extent(c.off + partial, c.len - partial) else c
  }

  lemma FrontFacts(cs: seq<Extent>, ms: seq<int>, orig: seq<Extent>, start: nat, cnt: nat, ptr: nat, partial: nat,
                   recv: nat, lo: int, hi: int)
    requires Loop(true, cs, ms, orig, start, cnt, ptr, partial, recv, lo, hi) && Positive(orig) && ptr < |cs|
    ensures |cs| == |ms| == |orig| && (partial < cs[ptr].len || partial == 0)
    ensures var c := Rest(cs[ptr], partial);
      c.off == Max(orig[ptr].off, lo) && c.End() == orig[ptr].End() && c.len > 0
  {
  }

  /** The next request starts beyond the window. */
  lemma LoopBeyond(cs: seq<Extent>, cs': seq<Extent>, ms: seq<int>, orig: seq<Extent>, start: nat, cnt: nat,
                   ptr: nat, partial: nat, recv: nat, lo: int, hi: int, c: Extent)
    requires Loop(true, cs, ms, orig, start, cnt, ptr, partial, recv, lo, hi)
    requires Ordered(orig) && Positive(orig) && lo < hi && ptr < |orig|
    requires (partial < cs[ptr].len || partial == 0) && c == Rest(cs[ptr], partial) && cs' == cs[ptr := c]
    requires hi <= c.off == Max(orig[ptr].off, lo)
    ensures Loop(false, cs', ms, orig, start, cnt, ptr, 0, recv, lo, hi)
  {
    LoopStop(cs, ms, orig, start, cnt, ptr, partial, recv, lo, hi);
    assert cs' == cs;
  }

  /** A request beyond the window, or the end of the list, ends the round. */
  lemma LoopStop(cs: seq<Extent>, ms: seq<int>, orig: seq<Extent>, start: nat, cnt: nat, ptr: nat, partial: nat,
                 recv: nat, lo: int, hi: int)
    requires Loop(true, cs, ms, orig, start, cnt, ptr, partial, recv, lo, hi)
    requires Ordered(orig) && Positive(orig) && lo < hi
    requires ptr < |orig| ==> hi <= Max(orig[ptr].off, lo)
    ensures partial == 0 && Loop(false, cs, ms, orig, start, cnt, ptr, partial, recv, lo, hi)
  {
    StopHere(cs, ms, orig, start, ptr, partial, lo, hi, cnt);
  }

  /** One process's requests at this aggregator (`others_req[i]`) together with its
      per-process counters: curr_offlen_ptr, partial_recv, start_pos, count, recv_size. */
  class Peer {
    ghost const orig: seq<Extent>
    var reqs: seq<Extent>
    var mem: seq<int>
    var ptr: nat
    var partial: nat
    var start: nat
    var count: nat
    var recvSize: nat

    constructor (rs: seq<Extent>)
      ensures orig == reqs == rs && |mem| == |rs| && ptr == partial == count == recvSize == 0
    {
      orig, reqs, mem := rs, rs, seq(|rs|, _ => 0);
      ptr, partial, start, count, recvSize := 0, 0, 0, 0, 0;
    }

    /** Between rounds, at file offset `b`. */
    ghost predicate Ready(b: int)
      reads this
    {
      Ordered(orig) && Positive(orig) && |mem| == |reqs| && At(reqs, orig, ptr, partial, b)
    }

    /** At the end of the round over [lo, hi): the pieces taken are the clip of the
        received list to the window. */
    ghost predicate Taken(lo: int, hi: int)
      reads this
    {
      Done(reqs, mem, orig, start, count, ptr, partial, lo, hi) && recvSize == |Flat(Clip(orig, lo, hi))|
    }

    /** One request: taken whole, taken in part, or left for a later round. */
    method TakeOne(off: int, size: nat) returns (more: bool, err: bool)
      requires Ordered(orig) && Positive(orig) && size > 0 && ptr < |reqs|
      requires Loop(true, reqs, mem, orig, start, count, ptr, partial, recvSize, off, off + size)
      modifies this
      ensures start == old(start)
      ensures Loop(more, reqs, mem, orig, start, count, ptr, partial, recvSize, off, off + size)
      ensures more ==> ptr == old(ptr) + 1
      ensures !err
    {
      hide *;
      FrontFacts(reqs, mem, orig, start, count, ptr, partial, recvSize, off, off + size);
      var c := Rest(reqs[ptr], partial);
      var reqs' := reqs[ptr := c];
      more, err := true, false;
      if c.off < off + size {
        var count' := count + 1;
        var mem' := mem[ptr := c.off - off];
        if off + size - c.off < c.len {
          var partial' := off + size - c.off;
          var recv' := recvSize + (off + size - c.off);
          LoopPart(reqs, mem, reqs', mem', orig, start, count, count', ptr, partial, partial', recvSize, recv',
                   off, off + size, c);
          if ptr + 1 < |reqs| && reqs'[ptr + 1].off < off + size {
            err := true;
          }
          more := false;
          reqs, mem, count, partial, recvSize := reqs', mem', count', partial', recv';
        } else {
          var recv' := recvSize + c.len;
          LoopWhole(reqs, mem, reqs', mem', orig, start, count, count', ptr, ptr + 1, partial, recvSize, recv',
                    off, off + size, c);
          reqs, mem, count, partial, recvSize, ptr := reqs', mem', count', 0, recv', ptr + 1;
        }
      } else {
        LoopBeyond(reqs, reqs', mem, orig, start, count, ptr, partial, recvSize, off, off + size, c);
        more := false;
        reqs, partial := reqs', 0;
      }
    }

    /** The window loop over one process's requests. */
    method Consume(off: int, size: nat) returns (err: bool)
      requires Ready(off) && size > 0
      modifies this
      ensures start == old(ptr)
      ensures Taken(off, off + size) && Ready(off + size)
      ensures !err
    {
      hide Ordered, Positive, Clip, Flat, Placed, Pieces;
      start, count, recvSize, err := ptr, 0, 0, false;
      var more := true;
      LoopStart(reqs, mem, orig, ptr, partial, off, off + size);
      while more && ptr < |reqs|
        invariant Loop(more, reqs, mem, orig, start, count, ptr, partial, recvSize, off, off + size)
        invariant start == old(ptr)
        invariant !err
        decreases more, |orig| - ptr
      {
        more, err := TakeOne(off, size);
      }
      if more {
        LoopStop(reqs, mem, orig, start, count, ptr, partial, recvSize, off, off + size);
      }
    }
  }

  lemma LoopStart(cs: seq<Extent>, ms: seq<int>, orig: seq<Extent>, ptr: nat, partial: nat, lo: int, hi: int)
    requires At(cs, orig, ptr, partial, lo) && |ms| == |cs| && lo < hi
    ensures Loop(true, cs, ms, orig, ptr, 0, ptr, partial, 0, lo, hi)
  {
    ClipStart(orig, ptr, lo, hi);
    assert cs[ptr..ptr] == [];
  }

  lemma ClipStart(orig: seq<Extent>, n: nat, lo: int, hi: int)
    requires n <= |orig| && forall j :: 0 <= j < n ==> orig[j].End() <= lo
    ensures Clip(orig[..n], lo, hi) == []
  {
    ClipMiss([], orig[..n], lo, hi);
    assert [] + orig[..n] == orig[..n];
  }

  lemma ClipEnd(orig: seq<Extent>, n: nat, lo: int, hi: int)
    requires n <= |orig| && forall j :: n <= j < |orig| ==> hi <= orig[j].off
    ensures Clip(orig, lo, hi) == Clip(orig[..n], lo, hi)
  {
    ClipMiss(orig[..n], orig[n..], lo, hi);
    assert orig[..n] + orig[n..] == orig;
  }

  lemma ClipStep(orig: seq<Extent>, j: nat, q: nat, c: Extent, lo: int, hi: int, m: nat)
    requires j < |orig| && q == j + 1
    requires c.End() == orig[j].End() && c.off == Max(orig[j].off, lo)
    requires lo < hi && c.len > 0 && c.off < hi && m == Min(hi - c.off, c.len)
    ensures Clip(orig[..q], lo, hi) == Clip(orig[..j], lo, hi) + [Extent(c.off, m)]
  {
    assert orig[..q] == orig[..j] + [orig[j]];
    ClipAppend(orig[..j], orig[j], lo, hi);
  }
}
