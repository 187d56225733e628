/**
 The window scan of a collective read, as in the round loop of `ADIOI_Read_and_exch`.
 One process's requests may overlap each other here, so a request that is cut by the end
 of the window can leave later requests that start before that end; the scan reports how
 many bytes of the window must be kept for them.
 */
module CarryOver {
  import opened Extents
  import opened Windows

  /** The stream positions of `orig` that were sent when the cursor is at `ptr` with
      `partial` bytes of request `ptr`, as it stands in `cs`, done. */
  function Consumed(cs: seq<Extent>, orig: seq<Extent>, ptr: nat, partial: nat): seq<int>
    requires ptr <= |orig| == |cs|
  {
    if ptr == |orig| then Flat(orig)
    else Flat(orig[..ptr]) + Range(orig[ptr].off, Max(0, cs[ptr].off + partial - orig[ptr].off))
  }

  /** Request `o`, of which `c` is the rest and `partial` bytes of that are done: the rest
      starts at the window boundary `b`, or nothing is done and it starts at `lo` or later. */
  ghost predicate Suffix(c: Extent, o: Extent, partial: nat, b: int, lo: int) {
    && c.End() == o.End() && o.off <= c.off
    && if partial > 0 then c.off + partial == b && partial < c.len else c == o && lo <= o.off
  }

  /** Between rounds: the next round reads from `b` on and has [b - carry, b) in memory. */
  ghost predicate Pending(cs: seq<Extent>, orig: seq<Extent>, ptr: nat, partial: nat, b: int, carry: nat) {
    && |cs| == |orig| && ptr <= |orig|
    && (forall j :: ptr < j < |orig| ==> cs[j] == orig[j] && b - carry <= orig[j].off)
    && (ptr == |orig| ==> partial == 0)
    && (ptr < |orig| ==> Suffix(cs[ptr], orig[ptr], partial, b, b))
  }

  /** Pieces lie inside the window held in memory. */
  ghost predicate Held(ps: seq<Extent>, lo: int, hi: int) {
    forall t :: 0 <= t < |ps| ==> lo <= ps[t].off && ps[t].End() <= hi
  }

  ghost predicate Scan(more: bool, cs: seq<Extent>, ms: seq<int>, orig: seq<Extent>, start: nat, count: nat,
                       ptr: nat, partial: nat, size: nat, lo: int, b: int, hi: int, was: seq<int>)
  {
    && |cs| == |ms| == |orig| && start <= ptr <= |orig| && start + count <= |orig|
    && Placed(cs, ms, start, start + count, lo, hi)
    && if more then
         && start + count == ptr
         && (forall j :: ptr < j < |orig| ==> cs[j] == orig[j] && lo <= orig[j].off)
         && (ptr == |orig| ==> partial == 0)
         && (ptr < |orig| ==> Suffix(cs[ptr], orig[ptr], partial, b, lo))
         && (ptr > start ==> partial == 0)
         && Held(cs[start..ptr], lo, hi)
         && Consumed(cs, orig, ptr, partial) == was + Flat(cs[start..ptr])
         && size == |Flat(cs[start..ptr])|
       else
         && Held(Pieces(cs, start, count, partial), lo, hi)
         && Consumed(cs, orig, ptr, partial) == was + Flat(Pieces(cs, start, count, partial))
         && size == |Flat(Pieces(cs, start, count, partial))|
         && (partial > 0 ==> count > 0)
  }

  lemma ScanStart(cs: seq<Extent>, ms: seq<int>, orig: seq<Extent>, ptr: nat, partial: nat, b: int, carry: nat,
                  lo: int, hi: int)
    requires Pending(cs, orig, ptr, partial, b, carry) && |ms| == |cs| && lo == b - carry && b <= hi
    ensures Scan(true, cs, ms, orig, ptr, 0, ptr, partial, 0, lo, b, hi, Consumed(cs, orig, ptr, partial))
  {
    assert cs[ptr..ptr] == [];
    var c := Consumed(cs, orig, ptr, partial);
    assert c + [] == c;
  }

  lemma RestFacts(cs: seq<Extent>, ms: seq<int>, orig: seq<Extent>, start: nat, count: nat, ptr: nat, partial: nat,
                  size: nat, lo: int, b: int, hi: int, was: seq<int>)
    requires Scan(true, cs, ms, orig, start, count, ptr, partial, size, lo, b, hi, was) && Positive(orig)
    requires ptr < |cs| && lo <= b
    ensures |cs| == |ms| == |orig| && (partial < cs[ptr].len || partial == 0)
    ensures var c := Rest(cs[ptr], partial);
      c.End() == orig[ptr].End() == c.off + c.len && c.len > 0 && orig[ptr].off <= c.off && lo <= c.off &&
      (partial > 0 ==> c.off == b)
  {
  }

  /** Appending to the consumed stream. */
  lemma ConsumedStep(cs: seq<Extent>, orig: seq<Extent>, ptr: nat, partial: nat, cs': seq<Extent>, c: Extent)
    requires ptr < |orig| == |cs| && (partial < cs[ptr].len || partial == 0) && c == Rest(cs[ptr], partial)
    requires cs' == cs[ptr := c]
    requires c.End() == orig[ptr].End() && orig[ptr].off <= c.off && (ptr + 1 < |orig| ==> cs[ptr + 1] == orig[ptr + 1])
    ensures Consumed(cs', orig, ptr + 1, 0) == Consumed(cs, orig, ptr, partial) + Range(c.off, c.len)
  {
    var o, p := orig[ptr], orig[..ptr];
    assert orig[..ptr + 1] == p + [o];
    FlatAppend(p, o);
    assert Range(o.off, o.len) == Range(o.off, c.off - o.off) + Range(c.off, c.len);
    Assoc(Flat(p), Range(o.off, c.off - o.off), Range(c.off, c.len));
    if ptr + 1 == |orig| {
      assert orig[..ptr + 1] == orig;
    } else {
      assert Range(orig[ptr + 1].off, 0) == [];
    }
  }

  lemma ConsumedPart(cs: seq<Extent>, orig: seq<Extent>, ptr: nat, partial: nat, cs': seq<Extent>, c: Extent, p: nat)
    requires ptr < |orig| == |cs| && (partial < cs[ptr].len || partial == 0) && c == Rest(cs[ptr], partial)
    requires cs' == cs[ptr := c]
    requires orig[ptr].off <= c.off
    ensures Consumed(cs', orig, ptr, p) == Consumed(cs, orig, ptr, partial) + Range(c.off, p)
  {
    var o := orig[ptr];
    assert Range(o.off, c.off + p - o.off) == Range(o.off, c.off - o.off) + Range(c.off, p);
    Assoc(Flat(orig[..ptr]), Range(o.off, c.off - o.off), Range(c.off, p));
  }

  /** A request that ends inside the window is sent whole. */
  lemma ScanWhole(cs: seq<Extent>, ms: seq<int>, cs': seq<Extent>, ms': seq<int>, orig: seq<Extent>, start: nat,
                  count: nat, count': nat, ptr: nat, q: nat, partial: nat, size: nat, size': nat, lo: int, b: int,
                  hi: int, was: seq<int>, c: Extent)
    requires Scan(true, cs, ms, orig, start, count, ptr, partial, size, lo, b, hi, was) && ptr < |orig|
    requires (partial < cs[ptr].len || partial == 0) && c == Rest(cs[ptr], partial)
    requires c.End() == orig[ptr].End() && c.len > 0 && orig[ptr].off <= c.off && lo <= c.off && c.End() <= hi
    requires cs' == cs[ptr := c] && ms' == ms[ptr := c.off - lo]
    requires q == ptr + 1 && count' == count + 1 && size' == size + c.len
    ensures Scan(true, cs', ms', orig, start, count', q, 0, size', lo, b, hi, was)
  {
    hide Consumed, Flat;
    var ps := cs[start..ptr];
    assert cs'[start..q] == ps + [c];
    FlatAppend(ps, c);
    ConsumedStep(cs, orig, ptr, partial, cs', c);
    Assoc(was, Flat(ps), Range(c.off, c.len));
    assert q < |orig| ==> Suffix(cs'[q], orig[q], 0, b, lo);
    assert Placed(cs', ms', start, q, lo, hi);
  }

  /** A request that crosses the window's end is sent in part. */
  lemma ScanPart(cs: seq<Extent>, ms: seq<int>, cs': seq<Extent>, ms': seq<int>, orig: seq<Extent>, start: nat,
                 count: nat, count': nat, ptr: nat, partial: nat, p: nat, size: nat, size': nat, lo: int, b: int,
                 hi: int, was: seq<int>, c: Extent)
    requires Scan(true, cs, ms, orig, start, count, ptr, partial, size, lo, b, hi, was) && ptr < |orig|
    requires (partial < cs[ptr].len || partial == 0) && c == Rest(cs[ptr], partial)
    requires orig[ptr].off <= c.off && lo <= c.off < hi < c.End()
    requires cs' == cs[ptr := c] && ms' == ms[ptr := c.off - lo]
    requires p == hi - c.off && count' == count + 1 && size' == size + p
    ensures Scan(false, cs', ms', orig, start, count', ptr, p, size', lo, b, hi, was)
  {
    hide Consumed, Flat, Pieces;
    var ps := cs[start..ptr];
    PiecesPart(cs, cs', start, ptr, c, p, count');
    FlatAppend(ps, Extent(c.off, p));
    ConsumedPart(cs, orig, ptr, partial, cs', c, p);
    Assoc(was, Flat(ps), Range(c.off, p));
    assert Placed(cs', ms', start, start + count', lo, hi);
  }

  /** The next request starts beyond the window, or there is none. */
  lemma ScanStop(cs: seq<Extent>, ms: seq<int>, orig: seq<Extent>, start: nat, count: nat, ptr: nat, size: nat,
                 lo: int, b: int, hi: int, was: seq<int>)
    requires Scan(true, cs, ms, orig, start, count, ptr, 0, size, lo, b, hi, was)
    ensures Scan(false, cs, ms, orig, start, count, ptr, 0, size, lo, b, hi, was)
  {
    StopPieces(cs, start, count, ptr, 0);
  }

  lemma TailFacts(cs: seq<Extent>, ms: seq<int>, orig: seq<Extent>, start: nat, count: nat, ptr: nat, partial: nat,
                  size: nat, lo: int, b: int, hi: int, was: seq<int>)
    requires Scan(true, cs, ms, orig, start, count, ptr, partial, size, lo, b, hi, was) && ptr < |cs|
    ensures |cs| == |ms| == |orig| && start + count == ptr && Suffix(cs[ptr], orig[ptr], partial, b, lo)
    ensures forall j :: ptr < j < |orig| ==> cs[j] == orig[j] && lo <= orig[j].off
  {
  }

  /** The first later request decides how much to keep. */
  lemma {:induction false} KeepEnough(cs: seq<Extent>, cs': seq<Extent>, orig: seq<Extent>, ptr: nat, c: Extent,
                                      p: nat, hi: int, need: nat)
    requires Sorted(orig) && ptr < |orig| == |cs| && forall j :: ptr < j < |orig| ==> cs[j] == orig[j]
    requires cs' == cs[ptr := c] && c.End() == orig[ptr].End() && orig[ptr].off <= c.off
    requires if p > 0 then c.off + p == hi && p < c.len else c == orig[ptr] && hi <= c.off
    requires p > 0 && ptr + 1 < |orig| ==> hi - need <= orig[ptr + 1].off
    ensures Pending(cs', orig, ptr, p, hi, need)
  {
    forall j | ptr < j < |orig| ensures hi - need <= orig[j].off {
      assert orig[ptr].off <= orig[j].off;
      if ptr + 1 < j { assert orig[ptr + 1].off <= orig[j].off; }
    }
  }

  lemma RestWhole(cs: seq<Extent>, cs': seq<Extent>, orig: seq<Extent>, ptr: nat, partial: nat, b: int, lo: int,
                  hi: int, c: Extent)
    requires ptr < |cs| == |orig| && Suffix(cs[ptr], orig[ptr], partial, b, lo) && c == Rest(cs[ptr], partial)
    requires cs' == cs[ptr := c] && b < hi <= c.off
    ensures partial == 0 && cs' == cs && c == orig[ptr]
  {
  }

  lemma ScanEnd(cs: seq<Extent>, ms: seq<int>, orig: seq<Extent>, start: nat, count: nat, ptr: nat, partial: nat,
                size: nat, lo: int, b: int, hi: int, was: seq<int>)
    requires Scan(true, cs, ms, orig, start, count, ptr, partial, size, lo, b, hi, was) && ptr == |cs|
    ensures Scan(false, cs, ms, orig, start, count, ptr, partial, size, lo, b, hi, was)
    ensures Pending(cs, orig, ptr, partial, hi, 0)
  {
    ScanStop(cs, ms, orig, start, count, ptr, size, lo, b, hi, was);
  }

  lemma ScanSizes(more: bool, cs: seq<Extent>, ms: seq<int>, orig: seq<Extent>, start: nat, count: nat, ptr: nat,
                  partial: nat, size: nat, lo: int, b: int, hi: int, was: seq<int>)
    requires Scan(more, cs, ms, orig, start, count, ptr, partial, size, lo, b, hi, was)
    ensures |cs| == |ms| == |orig| && ptr <= |orig|
  {
  }

  /** One process's requests at a reading aggregator with its counters: curr_offlen_ptr,
      partial_send, start_pos, count, send_size. */
  class Asker {
    ghost const orig: seq<Extent>
    var reqs: seq<Extent>
    var mem: seq<int>
    var ptr: nat
    var partial: nat
    var start: nat
    var count: nat
    var sendSize: nat

    constructor (rs: seq<Extent>)
      ensures orig == reqs == rs && |mem| == |rs| && ptr == partial == count == sendSize == 0
    {
      orig, reqs, mem := rs, rs, seq(|rs|, _ => 0);
      ptr, partial, start, count, sendSize := 0, 0, 0, 0, 0;
    }

    ghost predicate Ready(b: int, carry: nat)
      reads this
    {
      Sorted(orig) && Positive(orig) && |mem| == |reqs| && Pending(reqs, orig, ptr, partial, b, carry)
    }

    /** What was sent so far. */
    ghost function Sent(): seq<int>
      reads this
      requires ptr <= |orig| == |reqs|
    {
      Consumed(reqs, orig, ptr, partial)
    }

    /** The pieces of this round. */
    ghost function Round(): seq<Extent>
      reads this
      requires start + count <= |reqs|
    {
      Pieces(reqs, start, count, partial)
    }

    /** After the scan of [lo, hi): the round's pieces lie in the window, continue what was
        sent before, and have their places in the buffer. */
    ghost predicate Scanned(lo: int, hi: int, was: seq<int>)
      reads this
    {
      && |reqs| == |mem| == |orig| && start <= ptr <= |orig| && start + count <= |orig|
      && Placed(reqs, mem, start, start + count, lo, hi)
      && Held(Round(), lo, hi)
      && Sent() == was + Flat(Round())
      && sendSize == |Flat(Round())|
    }

    /** A request was cut off and the one after it starts at `x`. */
    ghost predicate Waits(x: int)
      reads this
    {
      partial > 0 && ptr + 1 < |orig| && orig[ptr + 1].off == x
    }

    lemma WaitsAt(x: int)
      requires partial > 0 && ptr + 1 < |orig| && orig[ptr + 1].off == x
      ensures Waits(x)
    {
    }

    /** One request; `need` is the number of bytes before `hi` to keep for later requests. */
    method TakeOne(lo: int, hi: int, ghost b: int, ghost was: seq<int>) returns (more: bool, need: nat)
      requires Sorted(orig) && Positive(orig) && ptr < |reqs| && lo <= b < hi
      requires Scan(true, reqs, mem, orig, start, count, ptr, partial, sendSize, lo, b, hi, was)
      modifies this
      ensures start == old(start)
      ensures Scan(more, reqs, mem, orig, start, count, ptr, partial, sendSize, lo, b, hi, was)
      ensures more ==> ptr == old(ptr) + 1 && need == 0
      ensures !more ==> Pending(reqs, orig, ptr, partial, hi, need)
      ensures need <= hi - lo && (need > 0 ==> Waits(hi - need))
      ensures old(partial) > 0 || old(count) > 0 ==> count > 0
    {
      hide *;
      RestFacts(reqs, mem, orig, start, count, ptr, partial, sendSize, lo, b, hi, was);
      var c := Rest(reqs[ptr], partial);
      var reqs' := reqs[ptr := c];
      more, need := true, 0;
      TailFacts(reqs, mem, orig, start, count, ptr, partial, sendSize, lo, b, hi, was);
      if c.off < hi {
        var mem' := mem[ptr := c.off - lo];
        if hi - c.off < c.len {
          var p := hi - c.off;
          ghost var was' := reqs;
          ScanPart(reqs, mem, reqs', mem', orig, start, count, count + 1, ptr, partial, p, sendSize, sendSize + p, lo,
                   b, hi, was, c);
          reqs, mem, count, partial, sendSize := reqs', mem', count + 1, p, sendSize + p;
          if ptr + 1 < |reqs| && reqs[ptr + 1].off < hi {
            need := hi - reqs[ptr + 1].off;
          }
          if need > 0 { WaitsAt(hi - need); }
          more := false;
          KeepEnough(was', reqs', orig, ptr, c, p, hi, need);
        } else {
          ScanWhole(reqs, mem, reqs', mem', orig, start, count, count + 1, ptr, ptr + 1, partial, sendSize,
                    sendSize + c.len,
                    lo, b, hi, was, c);
          reqs, mem, count, partial, sendSize, ptr := reqs', mem', count + 1, 0, sendSize + c.len, ptr + 1;
        }
      } else {
        RestWhole(reqs, reqs', orig, ptr, partial, b, lo, hi, c);
        ScanStop(reqs, mem, orig, start, count, ptr, sendSize, lo, b, hi, was);
        KeepEnough(reqs, reqs', orig, ptr, c, 0, hi, 0);
        more := false;
        reqs, partial := reqs', 0;
      }
    }

    /** The scan over one process's requests. */
    method ScanWindow(lo: int, hi: int, ghost b: int) returns (need: nat)
      requires lo <= b < hi && Ready(b, b - lo)
      modifies this
      ensures start == old(ptr)
      ensures Scanned(lo, hi, old(Sent())) && Ready(hi, need)
      ensures need <= hi - lo && (need > 0 ==> Waits(hi - need))
      ensures old(partial) > 0 ==> count > 0
      ensures partial > 0 ==> count > 0
    {
      hide Scan, Consumed, Flat, Pieces, Sorted, Positive;
      start, count, sendSize, need := ptr, 0, 0, 0;
      ghost var was := Sent();
      ghost var carry := b - lo;
      ScanStart(reqs, mem, orig, ptr, partial, b, carry, lo, hi);
      var more := true;
      while more && ptr < |reqs|
        invariant Scan(more, reqs, mem, orig, start, count, ptr, partial, sendSize, lo, b, hi, was)
        invariant ptr <= |reqs| == |orig| && start == old(ptr)
        invariant !more ==> Pending(reqs, orig, ptr, partial, hi, need)
        invariant need <= hi - lo && (need > 0 ==> Waits(hi - need)) && (more ==> need == 0)
        invariant old(partial) > 0 ==> count > 0 || partial > 0
        decreases more, |orig| - ptr
      {
        more, need := TakeOne(lo, hi, b, was);
        ScanSizes(more, reqs, mem, orig, start, count, ptr, partial, sendSize, lo, b, hi, was);
      }
      if more {
        ScanEnd(reqs, mem, orig, start, count, ptr, partial, sendSize, lo, b, hi, was);
      }
      Result(lo, b, hi, was);
    }

    lemma Result(lo: int, b: int, hi: int, was: seq<int>)
      requires Scan(false, reqs, mem, orig, start, count, ptr, partial, sendSize, lo, b, hi, was)
      ensures Scanned(lo, hi, was) && (partial > 0 ==> count > 0)
    {
    }
  }
}
