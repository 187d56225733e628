/**
 One aggregator's side of a collective read (`ADIOI_Read_and_exch`): read the file in
 windows of at most cb bytes, keep the tail of a window that later requests still need,
 and send every process the bytes of its requests in order.
 */
module Reader {
  import opened Sequences
  import opened Extents
  import opened Windows
  import opened Rounds
  import opened Writer
  import opened CarryOver

  /** The file's bytes at the given offsets. */
  function Bytes(image: Image, offs: seq<int>): (r: seq<Byte>)
    ensures |r| == |offs| && forall k :: 0 <= k < |r| ==> r[k] == image(offs[k])
  {
    seq(|offs|, k requires 0 <= k < |offs| => image(offs[k]))
  }

  /** The buffer's first hi - lo bytes are the file's bytes [lo, hi). */
  ghost predicate Mirrors(buf: array<Byte>, image: Image, lo: int, hi: int)
    reads buf
  {
    lo <= hi <= lo + buf.Length && forall i :: 0 <= i < hi - lo ==> buf[i] == image(lo + i)
  }

  ghost predicate AllPending(askers: seq<Asker>, origs: seq<seq<Extent>>, b: int, carry: nat)
    reads askers
  {
    |askers| == |origs| && forall i :: 0 <= i < |askers| ==> askers[i].orig == origs[i] && askers[i].Ready(b, carry)
  }

  /** The stream sent to process i so far is was[i]. */
  ghost predicate Streams(askers: seq<Asker>, was: seq<seq<int>>)
    reads askers
  {
    |was| == |askers| &&
    forall i :: 0 <= i < |askers| ==>
        askers[i].ptr <= |askers[i].orig| == |askers[i].reqs| && askers[i].Sent() == was[i]
  }

  ghost predicate AllScanned(askers: seq<Asker>, lo: int, hi: int, was: seq<seq<int>>)
    reads askers
  {
    |was| == |askers| && forall i :: 0 <= i < |askers| ==> askers[i].Scanned(lo, hi, was[i])
  }

  ghost predicate SomePartial(askers: seq<Asker>)
    reads askers
  {
    exists i :: 0 <= i < |askers| && askers[i].partial > 0
  }

  /** Some process waits for a request that starts at `x`: keeping less would lose it. */
  ghost predicate SomeWaits(askers: seq<Asker>, x: int)
    reads askers
  {
    exists i :: 0 <= i < |askers| && askers[i].Waits(x)
  }

  ghost predicate SomeCount(askers: seq<Asker>)
    reads askers
  {
    exists i :: 0 <= i < |askers| && askers[i].count > 0
  }

  /** One process before the scan of a round ... */
  ghost predicate Before(p: Asker, orig: seq<Extent>, b: int, carry: nat, was: seq<int>, partial: nat)
    reads p
  {
    p.orig == orig && p.Ready(b, carry) && p.Sent() == was && p.partial == partial
  }

  /** ... and after it; `partial` is its partial length before. */
  ghost predicate After(p: Asker, orig: seq<Extent>, lo: int, hi: int, carry: nat, was: seq<int>, partial: nat)
    reads p
  {
    p.orig == orig && p.Ready(hi, carry) && p.Scanned(lo, hi, was) && (partial > 0 || p.partial > 0 ==> p.count > 0)
  }

  lemma KeepMore(p: Asker, orig: seq<Extent>, lo: int, hi: int, carry: nat, carry': nat, was: seq<int>, partial: nat)
    requires After(p, orig, lo, hi, carry, was, partial) && carry <= carry'
    ensures After(p, orig, lo, hi, carry', was, partial)
  {
  }

  /** The scan of one round for one process. */
  method ScanOne(p: Asker, lo: int, hi: int, ghost b: int, ghost orig: seq<Extent>, ghost was: seq<int>,
                 ghost partial: nat)
    returns (need: nat)
    requires lo <= b < hi && Before(p, orig, b, b - lo, was, partial)
    modifies p
    ensures After(p, orig, lo, hi, need, was, partial) && need <= hi - lo && (need > 0 ==> p.Waits(hi - need))
  {
    hide Asker.Ready, Asker.Scanned;
    need := p.ScanWindow(lo, hi, b);
  }

  /** The scan of one round, for every process; the carry covers all of them. */
  method ScanAll(askers: seq<Asker>, lo: int, hi: int, ghost b: int, ghost origs: seq<seq<Extent>>,
                 ghost was: seq<seq<int>>)
    returns (carry: nat)
    requires Distinct(askers) && lo <= b < hi && AllPending(askers, origs, b, b - lo) && Streams(askers, was)
    modifies askers
    ensures AllPending(askers, origs, hi, carry) && AllScanned(askers, lo, hi, was)
    ensures carry <= hi - lo && (carry > 0 ==> SomePartial(askers) && SomeWaits(askers, hi - carry))
    ensures old(SomePartial(askers)) || SomePartial(askers) ==> SomeCount(askers)
  {
    hide Before, After, AllPending, AllScanned, Streams, SomePartial, SomeCount, SomeWaits, Asker.Waits;
    carry := 0;
    ghost var p0 := seq(|askers|, i requires 0 <= i < |askers| reads askers => askers[i].partial);
    BeforeAll(askers, b, b - lo, origs, was, p0);
    for i := 0 to |askers|
      invariant carry <= hi - lo
      invariant forall k :: 0 <= k < i ==> After(askers[k], origs[k], lo, hi, carry, was[k], p0[k])
      invariant carry > 0 ==> exists k :: 0 <= k < i && askers[k].Waits(hi - carry)
      invariant forall k :: i <= k < |askers| ==> Before(askers[k], origs[k], b, b - lo, was[k], p0[k])
    {
      var need := ScanOne(askers[i], lo, hi, b, origs[i], was[i], p0[i]);
      ghost var c0 := carry;
      carry := if carry <= need then need else carry;
      forall k | 0 <= k <= i ensures After(askers[k], origs[k], lo, hi, carry, was[k], p0[k]) {
        KeepMore(askers[k], origs[k], lo, hi, if k < i then c0 else need, carry, was[k], p0[k]);
      }
    }
    AfterAll(askers, lo, hi, carry, origs, was, p0);
  }

  lemma BeforeAll(askers: seq<Asker>, b: int, carry: nat, origs: seq<seq<Extent>>, was: seq<seq<int>>, p0: seq<nat>)
    requires AllPending(askers, origs, b, carry) && Streams(askers, was)
    requires |p0| == |askers| && forall i :: 0 <= i < |askers| ==> p0[i] == askers[i].partial
    ensures |askers| == |origs| == |was|
    ensures forall k :: 0 <= k < |askers| ==> Before(askers[k], origs[k], b, carry, was[k], p0[k])
    ensures SomePartial(askers) ==> exists k :: 0 <= k < |p0| && p0[k] > 0
  {
    hide Asker.Ready, Asker.Sent;
    if SomePartial(askers) {
      var k :| 0 <= k < |askers| && askers[k].partial > 0;
      assert p0[k] > 0;
    }
  }

  lemma AfterAll(askers: seq<Asker>, lo: int, hi: int, carry: nat, origs: seq<seq<Extent>>, was: seq<seq<int>>,
                 p0: seq<nat>)
    requires |askers| == |origs| == |was| == |p0|
    requires forall k :: 0 <= k < |askers| ==> After(askers[k], origs[k], lo, hi, carry, was[k], p0[k])
    requires carry > 0 ==> exists k :: 0 <= k < |askers| && askers[k].Waits(hi - carry)
    ensures AllPending(askers, origs, hi, carry) && AllScanned(askers, lo, hi, was)
    ensures carry > 0 ==> SomePartial(askers) && SomeWaits(askers, hi - carry)
    ensures (exists k :: 0 <= k < |p0| && p0[k] > 0) || SomePartial(askers) ==> SomeCount(askers)
  {
    hide Asker.Ready, Asker.Scanned;
    if SomePartial(askers) {
      var k :| 0 <= k < |askers| && askers[k].partial > 0;
      assert After(askers[k], origs[k], lo, hi, carry, was[k], p0[k]);
    }
    if k :| 0 <= k < |p0| && p0[k] > 0 {
      assert After(askers[k], origs[k], lo, hi, carry, was[k], p0[k]);
    }
  }

  /** The data for one process: its pieces, copied out of the buffer one after the other. */
  method PackSend(p: Asker, buf: array<Byte>, lo: int, hi: int, ghost image: Image,
                  ghost was: seq<int>) returns (data: seq<Byte>)
    requires p.Scanned(lo, hi, was) && (p.count > 0 ==> Mirrors(buf, image, lo, hi))
    ensures p.Scanned(lo, hi, was) && data == Bytes(image, Flat(p.Round()))
  {
    hide Asker.Sent, Mirrors, Placed;
    data := [];
    NoBytes(image);
    if p.sendSize != 0 {
      ghost var ps := p.Round();
      assert ps[..0] == [];
      for j := 0 to p.count
        invariant data == Bytes(image, Flat(ps[..j]))
      {
        var k := p.start + j;
        var len := if j == p.count - 1 && p.partial != 0 then p.partial else p.reqs[k].len;
        var from := p.mem[k];
        assert ps[j] == Extent(p.reqs[k].off, len) && lo <= ps[j].off && ps[j].End() <= hi;
        PlacedAt(p.reqs, p.mem, p.start, p.start + p.count, lo, hi, k);
        MirrorSize(buf, image, lo, hi);
        SendPiece(image, ps, j, data, buf[from..from + len], buf, lo, hi);
        data := data + buf[from..from + len];
      }
      assert ps[..p.count] == ps;
    }
  }

  lemma NoBytes(image: Image)
    ensures Bytes(image, Flat([])) == []
  {
  }

  lemma PlacedAt(cs: seq<Extent>, ms: seq<int>, a: nat, b: nat, lo: int, hi: int, k: nat)
    requires |cs| == |ms| && b <= |cs| && Placed(cs, ms, a, b, lo, hi) && a <= k < b
    ensures ms[k] == cs[k].off - lo
  {
  }

  lemma MirrorSize(buf: array<Byte>, image: Image, lo: int, hi: int)
    requires Mirrors(buf, image, lo, hi)
    ensures lo <= hi <= lo + buf.Length
  {
  }

  lemma SendPiece(image: Image, ps: seq<Extent>, j: nat, data: seq<Byte>, more: seq<Byte>, buf: array<Byte>, lo: int,
                  hi: int)
    requires j < |ps| && data == Bytes(image, Flat(ps[..j])) && Mirrors(buf, image, lo, hi)
    requires lo <= ps[j].off && ps[j].End() <= hi
    requires var from := ps[j].off - lo; more == buf[from..from + ps[j].len]
    ensures data + more == Bytes(image, Flat(ps[..j + 1]))
  {
    assert ps[..j + 1] == ps[..j] + [ps[j]];
    FlatAppend(ps[..j], ps[j]);
  }

  /** What this round sends to one process continues its stream. */
  ghost predicate SendOf(sent: seq<Byte>, p: Asker, image: Image, was: seq<int>)
    reads p
  {
    p.ptr <= |p.orig| == |p.reqs| && Bytes(image, p.Sent()) == Bytes(image, was) + sent
  }

  ghost predicate SendsOf(sent: seq<seq<Byte>>, askers: seq<Asker>, image: Image, was: seq<seq<int>>)
    reads askers
  {
    |sent| == |was| == |askers| && forall i :: 0 <= i < |askers| ==> SendOf(sent[i], askers[i], image, was[i])
  }

  method PackAll(askers: seq<Asker>, buf: array<Byte>, lo: int, hi: int, ghost image: Image, ghost was: seq<seq<int>>)
    returns (sent: seq<seq<Byte>>)
    requires AllScanned(askers, lo, hi, was) && (SomeCount(askers) ==> Mirrors(buf, image, lo, hi))
    ensures SendsOf(sent, askers, image, was)
  {
    hide SendOf, Asker.Scanned, Mirrors;
    sent := [];
    for i := 0 to |askers|
      invariant |sent| == i
      invariant forall k :: 0 <= k < i ==> SendOf(sent[k], askers[k], image, was[k])
    {
      var data := PackSend(askers[i], buf, lo, hi, image, was[i]);
      SendContinues(askers[i], data, lo, hi, image, was[i]);
      sent := sent + [data];
    }
  }

  lemma SendContinues(p: Asker, data: seq<Byte>, lo: int, hi: int, image: Image, was: seq<int>)
    requires p.Scanned(lo, hi, was) && data == Bytes(image, Flat(p.Round()))
    ensures SendOf(data, p, image, was)
  {
    SentBytes(image, p.Sent(), was, Flat(p.Round()));
  }

  lemma SentBytes(image: Image, now: seq<int>, was: seq<int>, more: seq<int>)
    requires now == was + more
    ensures Bytes(image, now) == Bytes(image, was) + Bytes(image, more)
  {
  }

  /** The tail [b - carry, b) of the window is at the front of a buffer with room for the
      next window behind it. */
  ghost predicate Kept(buf: array<Byte>, image: Image, b: int, carry: nat, cb: nat)
    reads buf
  {
    carry + cb <= buf.Length && Mirrors(buf, image, b - carry, b)
  }

  /** Read the window behind the bytes kept from the last one. */
  method ReadWindow(disk: Disk, buf: array<Byte>, off: int, size: nat, carry: nat, ghost cb: nat)
    requires Kept(buf, disk.image, off, carry, cb) && size <= cb
    modifies buf
    ensures Mirrors(buf, disk.image, off - carry, off + size)
  {
    disk.ReadContig(buf, carry, off, size);
  }

  /** Move the last `carry` bytes of the window to the front of a new, larger buffer. */
  method KeepTail(buf: array<Byte>, realSize: nat, carry: nat, cb: nat, ghost image: Image, ghost lo: int,
                  ghost hi: int)
    returns (buf': array<Byte>)
    requires Mirrors(buf, image, lo, hi) && hi == lo + realSize && carry <= realSize
    ensures fresh(buf') && Kept(buf', image, hi, carry, cb)
  {
    buf' := new Byte[carry + cb];
    for i := 0 to carry
      invariant forall k :: 0 <= k < i ==> buf'[k] == image(hi - carry + k)
    {
      buf'[i] := buf[realSize - carry + i];
    }
  }

  method AnyCount(askers: seq<Asker>) returns (flag: bool)
    ensures flag <==> SomeCount(askers)
  {
    flag := false;
    for i := 0 to |askers|
      invariant flag <==> exists k :: 0 <= k < i && askers[k].count > 0
    {
      if askers[i].count != 0 { flag := true; }
    }
  }

  /** One round: scan, read, send, keep the tail. */
  method ReadRound(askers: seq<Asker>, disk: Disk, buf0: array<Byte>, off: int, size: nat, carry0: nat, cb: nat,
                   ghost origs: seq<seq<Extent>>, ghost was: seq<seq<int>>)
    returns (buf: array<Byte>, carry: nat, sent: seq<seq<Byte>>)
    requires Distinct(askers) && 0 < size <= cb
    requires AllPending(askers, origs, off, carry0) && Streams(askers, was)
    requires Kept(buf0, disk.image, off, carry0, cb) && (carry0 > 0 ==> SomePartial(askers))
    modifies askers, buf0
    ensures buf == buf0 || fresh(buf)
    ensures AllPending(askers, origs, off + size, carry) && SendsOf(sent, askers, disk.image, was)
    ensures carry <= carry0 + size && (carry > 0 ==> SomeWaits(askers, off + size - carry))
    ensures Kept(buf, disk.image, off + size, carry, cb) && (carry > 0 ==> SomePartial(askers))
  {
    hide Distinct, AllPending, Streams, AllScanned, SendsOf, SomePartial, SomeCount, Mirrors, SomeWaits;
    var realOff, realSize := off - carry0, size + carry0;
    carry := ScanAll(askers, realOff, realOff + realSize, off, origs, was);
    var flag := AnyCount(askers);
    if flag {
      ReadWindow(disk, buf0, off, size, carry0, cb);
    }
    sent := PackAll(askers, buf0, realOff, realOff + realSize, disk.image, was);
    buf := buf0;
    if carry != 0 {
      buf := KeepTail(buf0, realSize, carry, cb, disk.image, realOff, realOff + realSize);
    } else {
      NothingKept(buf, disk.image, off + size, cb);
    }
  }

  lemma NothingKept(buf: array<Byte>, image: Image, b: int, cb: nat)
    requires cb <= buf.Length
    ensures Kept(buf, image, b, 0, cb)
  {
  }

  /** Everything sent to process `i` over the rounds. */
  function Joined(sends: seq<seq<seq<Byte>>>, i: nat): seq<Byte>
    requires forall m :: 0 <= m < |sends| ==> i < |sends[m]|
  {
    if sends == [] then [] else Joined(sends[..|sends| - 1], i) + sends[|sends| - 1][i]
  }

  ghost predicate JoinedAll(sends: seq<seq<seq<Byte>>>, image: Image, was: seq<seq<int>>) {
    && (forall m :: 0 <= m < |sends| ==> |sends[m]| == |was|)
    && forall i :: 0 <= i < |was| ==> Joined(sends, i) == Bytes(image, was[i])
  }

  lemma JoinedStep(sends: seq<seq<seq<Byte>>>, sent: seq<seq<Byte>>, image: Image, was: seq<seq<int>>,
                   now: seq<seq<int>>)
    requires JoinedAll(sends, image, was) && |sent| == |was| == |now|
    requires forall i :: 0 <= i < |was| ==> Bytes(image, now[i]) == Bytes(image, was[i]) + sent[i]
    ensures JoinedAll(sends + [sent], image, now)
  {
    var all := sends + [sent];
    assert all[..|sends|] == sends;
  }

  ghost function SentNow(askers: seq<Asker>): (r: seq<seq<int>>)
    reads askers
    requires forall i :: 0 <= i < |askers| ==> askers[i].ptr <= |askers[i].orig| == |askers[i].reqs|
    ensures Streams(askers, r)
  {
    seq(|askers|, i requires 0 <= i < |askers| && askers[i].ptr <= |askers[i].orig| == |askers[i].reqs| reads askers =>
      askers[i].Sent())
  }

  /** The whole read: every process is sent the file bytes of its requests, in order, and
      all cursors end at the end of their lists. */
  method ReadAndExch(askers: seq<Asker>, reqs: seq<seq<Extent>>, cb: nat, ioBuf: array<Byte>, disk: Disk)
    returns (sends: seq<seq<seq<Byte>>>)
    requires cb > 0 && cb <= ioBuf.Length && NonNegative(reqs)
    requires forall i :: 0 <= i < |reqs| ==> Sorted(reqs[i]) && Positive(reqs[i])
    requires Distinct(askers) && |askers| == |reqs|
    requires forall i :: 0 <= i < |askers| ==>
               askers[i].orig == askers[i].reqs == reqs[i] && |askers[i].mem| == |reqs[i]| &&
               askers[i].ptr == askers[i].partial == 0
    modifies askers, ioBuf
    ensures forall m :: 0 <= m < |sends| ==> |sends[m]| == |reqs|
    ensures forall i :: 0 <= i < |reqs| ==> Joined(sends, i) == Bytes(disk.image, Flat(reqs[i]))
    ensures forall i :: 0 <= i < |reqs| ==> askers[i].ptr == |reqs[i]| && askers[i].partial == 0
    ensures InRounds(reqs, |sends|, cb)
  {
    hide InRounds, Joined, Flat, Requested, Spans, AllPending, Streams, JoinedAll, Sorted, Positive, NonNegative;
    var st, end := FindSpan(reqs);
    SomeRounds(st, end, cb);
    var ntimes := (end - st + cb) / cb;
    if st == -1 && end == -1 {
      ntimes := 0;
    }
    StartPending(askers, reqs, st, end);
    sends := [];
    if ntimes != 0 {
      ghost var now, left;
      sends, now, left := ReadRounds(askers, cb, ioBuf, disk, st, end, ntimes, reqs);
      FinalPending(askers, reqs, st, end, left);
      AllSent(askers, now, sends, reqs, disk.image);
      RoundsOfSpan(reqs, st, end, ntimes, cb);
    } else {
      NoRounds(reqs, cb);
      NothingSent(reqs, disk.image);
    }
  }

  lemma AllSent(askers: seq<Asker>, now: seq<seq<int>>, sends: seq<seq<seq<Byte>>>, reqs: seq<seq<Extent>>,
                image: Image)
    requires |askers| == |reqs| && Streams(askers, now) && JoinedAll(sends, image, now)
    requires forall i :: 0 <= i < |askers| ==> askers[i].orig == reqs[i] && askers[i].ptr == |reqs[i]|
    ensures forall m :: 0 <= m < |sends| ==> |sends[m]| == |reqs|
    ensures forall i :: 0 <= i < |reqs| ==> Joined(sends, i) == Bytes(image, Flat(reqs[i]))
  {
    hide Joined, Flat;
    forall i | 0 <= i < |reqs| ensures Joined(sends, i) == Bytes(image, Flat(reqs[i])) {
      assert now[i] == askers[i].Sent() == Flat(reqs[i]);
    }
  }

  lemma NothingSent(reqs: seq<seq<Extent>>, image: Image)
    requires forall i :: 0 <= i < |reqs| ==> reqs[i] == []
    ensures forall i :: 0 <= i < |reqs| ==> Joined([], i) == Bytes(image, Flat(reqs[i]))
  {
    forall i | 0 <= i < |reqs| ensures Joined([], i) == Bytes(image, Flat(reqs[i])) {
      assert reqs[i] == [];
    }
  }

  /** The loop over the windows from st to end. */
  method ReadRounds(askers: seq<Asker>, cb: nat, ioBuf: array<Byte>, disk: Disk, st: int, end: int, ntimes: nat,
                    ghost origs: seq<seq<Extent>>)
    returns (sends: seq<seq<seq<Byte>>>, ghost now: seq<seq<int>>, ghost left: nat)
    requires cb > 0 && cb <= ioBuf.Length && Distinct(askers)
    requires AllPending(askers, origs, st, 0) && Streams(askers, seq(|askers|, _ => []))
    requires st <= end && ntimes == RoundCount(end - st + 1, cb)
    modifies askers, ioBuf
    ensures |sends| == ntimes
    ensures AllPending(askers, origs, end + 1, left)
    ensures Streams(askers, now) && JoinedAll(sends, disk.image, now)
  {
    hide *;
    ghost var total := end - st + 1;
    var off, done, carry: nat, buf := st, 0, 0, ioBuf;
    sends := [];
    now := seq(|askers|, _ => []);
    JoinedNone(disk.image, now);
    CoversAll(total, cb);
    NothingKept(buf, disk.image, off, cb);
    for m := 0 to ntimes
      invariant done == Covers(m, total, cb) && off == st + done && |sends| == m
      invariant buf == ioBuf || fresh(buf)
      invariant AllPending(askers, origs, off, carry) && (carry > 0 ==> SomePartial(askers))
      invariant Kept(buf, disk.image, off, carry, cb)
      invariant Streams(askers, now) && JoinedAll(sends, disk.image, now)
    {
      CoversStep(m, total, cb);
      var size := Least(cb, end - st + 1 - done);
      var sent;
      ghost var was := now;
      buf, carry, sent := ReadRound(askers, disk, buf, off, size, carry, cb, origs, was);
      now := StreamsNow(askers, sent, disk.image, was);
      JoinedStep(sends, sent, disk.image, was, now);
      sends := sends + [sent];
      off := off + size;
      done := done + size;
    }
    left := carry;
  }

  lemma JoinedNone(image: Image, now: seq<seq<int>>)
    requires forall i :: 0 <= i < |now| ==> now[i] == []
    ensures JoinedAll([], image, now)
  {
  }

  lemma StreamsNow(askers: seq<Asker>, sent: seq<seq<Byte>>, image: Image,
                   was: seq<seq<int>>) returns (now: seq<seq<int>>)
    requires SendsOf(sent, askers, image, was)
    ensures Streams(askers, now) && |sent| == |was| == |now|
    ensures forall i :: 0 <= i < |was| ==> Bytes(image, now[i]) == Bytes(image, was[i]) + sent[i]
  {
    now := SentNow(askers);
  }

  lemma StartPending(askers: seq<Asker>, reqs: seq<seq<Extent>>, st: int, end: int)
    requires |askers| == |reqs| && Spans(reqs, st, end)
    requires forall i :: 0 <= i < |reqs| ==> Sorted(reqs[i]) && Positive(reqs[i])
    requires forall i :: 0 <= i < |askers| ==>
               askers[i].orig == askers[i].reqs == reqs[i] && |askers[i].mem| == |reqs[i]| &&
               askers[i].ptr == askers[i].partial == 0
    ensures AllPending(askers, reqs, st, 0) && Streams(askers, seq(|askers|, _ => []))
  {
    forall i | 0 <= i < |reqs| ensures askers[i].Ready(st, 0) && askers[i].Sent() == [] {
      forall j | 0 <= j < |reqs[i]| ensures st <= reqs[i][j].off { }
      assert reqs[i][..0] == [];
    }
  }

  /** Past the last requested byte nothing can be pending. */
  lemma FinalPending(askers: seq<Asker>, reqs: seq<seq<Extent>>, st: int, end: int, carry: nat)
    requires AllPending(askers, reqs, end + 1, carry) && Spans(reqs, st, end)
    requires forall i :: 0 <= i < |reqs| ==> Positive(reqs[i])
    ensures forall i :: 0 <= i < |askers| ==> askers[i].ptr == |reqs[i]| && askers[i].partial == 0
  {
    forall i | 0 <= i < |askers| ensures askers[i].ptr == |reqs[i]| && askers[i].partial == 0 {
      var p := askers[i];
      assert p.Ready(end + 1, carry);
      forall j | 0 <= j < |reqs[i]| ensures reqs[i][j].End() <= end + 1 && reqs[i][j].len > 0 { }
    }
  }
}
