/**
 One aggregator's side of a collective write: fill a window from the received data,
 reading it first if it has holes, then write it (`ADIOI_Exch_and_write` with
 `ADIOI_W_Exchange_data_alltoallv`).
 */
module Writer {
  import opened Sequences
  import opened Extents
  import opened HeapMerge
  import opened Windows
  import opened Holes
  import opened DisjointLists
  import opened Rounds

  /** The shared file, and the extents written to it so far, call by call. */
  class Disk {
    var image: Image
    var log: seq<Extent>

    constructor (f: Image)
      ensures image == f && log == []
    {
      image, log := f, [];
    }

    method ReadContig(buf: array<Byte>, at: nat, off: int, size: nat)
      requires at + size <= buf.Length
      modifies buf
      ensures forall k :: 0 <= k < buf.Length ==>
                buf[k] == if at <= k < at + size then image(off + (k - at)) else old(buf[k])
    {
      for j := 0 to size
        invariant forall k :: 0 <= k < buf.Length ==>
                    buf[k] == if at <= k < at + j then image(off + (k - at)) else old(buf[k])
      {
        buf[at + j] := image(off + j);
      }
    }

    method WriteContig(buf: array<Byte>, at: nat, off: int, size: nat)
      requires at + size <= buf.Length
      modifies this
      ensures forall x :: image(x) == if off <= x < off + size then buf[at + (x - off)] else old(image)(x)
      ensures log == old(log) + [Extent(off, size)]
    {
      log := log + [Extent(off, size)];
      var f, data := image, buf[at..at + size];
      image := x => if off <= x < off + size then data[x - off] else f(x);
    }
  }

  // ---------- Scattering received bytes into the window ----------

  lemma PutRange(v: Byte, o: int, data: seq<Byte>, x: int)
    ensures Put(v, Range(o, |data|), data, x) == if o <= x < o + |data| then data[x - o] else v
  {
    var r := Range(o, |data|);
    if o <= x < o + |data| {
      assert r[x - o] == x;
      PutAt(v, r, data, x - o);
    } else {
      PutMiss(v, r, data, x);
    }
  }

  method CopyIn(buf: array<Byte>, at: nat, data: seq<Byte>)
    requires at + |data| <= buf.Length
    modifies buf
    ensures forall k :: 0 <= k < buf.Length ==>
              buf[k] == if at <= k < at + |data| then data[k - at] else old(buf[k])
  {
    for j := 0 to |data|
      invariant forall k :: 0 <= k < buf.Length ==>
                  buf[k] == if at <= k < at + j then data[k - at] else old(buf[k])
    {
      buf[at + j] := data[j];
    }
  }

  /** The buffer part [base, base + size) holds, at each byte, `old` overwritten by the streams. */
  ghost predicate Overlaid(now: seq<Byte>, was: seq<Byte>, base: nat, size: nat, off: int, offs: seq<int>,
                           data: seq<Byte>)
    requires |offs| == |data|
  {
    && |now| == |was| && base + size <= |now|
    && (forall j :: base <= j < base + size ==> now[j] == Put(was[j], offs, data, off + (j - base)))
    && (forall j :: 0 <= j < |now| && !(base <= j < base + size) ==> now[j] == was[j])
  }

  /** One more piece, copied to its place. */
  lemma OverlaidStep(now: seq<Byte>, next: seq<Byte>, was: seq<Byte>, base: nat, size: nat, off: int, offs: seq<int>,
                     data: seq<Byte>, p: Extent, d: seq<Byte>, at: nat)
    requires |offs| == |data| && Overlaid(now, was, base, size, off, offs, data)
    requires off <= p.off && p.End() <= off + size && |d| == p.len && at == base + (p.off - off)
    requires |next| == |now|
    requires forall j :: 0 <= j < |now| ==> next[j] == if at <= j < at + |d| then d[j - at] else now[j]
    ensures |offs + Range(p.off, p.len)| == |data + d|
    ensures Overlaid(next, was, base, size, off, offs + Range(p.off, p.len), data + d)
  {
    forall j | base <= j < base + size
      ensures next[j] == Put(was[j], offs + Range(p.off, p.len), data + d, off + (j - base))
    {
      var x := off + (j - base);
      PutConcat(was[j], offs, data, Range(p.off, p.len), d, x);
      PutRange(Put(was[j], offs, data, x), p.off, d, x);
    }
  }

  lemma FlatLength(xs: seq<Extent>, j: nat, q: nat)
    requires j < |xs| && q == j + 1
    ensures Flat(xs[..q]) == Flat(xs[..j]) + Range(xs[j].off, xs[j].len)
  {
    assert xs[..q] == xs[..j] + [xs[j]];
    FlatAppend(xs[..j], xs[j]);
  }

  lemma {:induction false} FlatMonotone(xs: seq<Extent>, j: nat)
    requires j <= |xs|
    ensures |Flat(xs[..j])| <= |Flat(xs)|
  {
    assert xs == xs[..j] + xs[j..];
    FlatConcat(xs[..j], xs[j..]);
  }

  /** The memcpy loop over one process's pieces. */
  method ScatterOne(buf: array<Byte>, base: nat, size: nat, off: int, ps: seq<Extent>, ms: seq<int>, recv: seq<Byte>)
    requires base + size <= buf.Length && |ms| == |ps| && |recv| == |Flat(ps)|
    requires forall t :: 0 <= t < |ps| ==> ms[t] == ps[t].off - off && off <= ps[t].off && ps[t].End() <= off + size
    modifies buf
    ensures Overlaid(buf[..], old(buf[..]), base, size, off, Flat(ps), recv)
  {
    hide Overlaid, Flat;
    var sp := 0;
    ghost var was := buf[..];
    OverlaidStart(was, base, size, off);
    assert ps[..0] == [] && recv[..0] == [];
    FlatNone();
    for j := 0 to |ps|
      invariant sp == |Flat(ps[..j])| <= |recv|
      invariant Overlaid(buf[..], was, base, size, off, Flat(ps[..j]), recv[..sp])
    {
      var len := ps[j].len;
      FlatLength(ps, j, j + 1);
      FlatMonotone(ps, j + 1);
      ghost var now := buf[..];
      CopyIn(buf, base + ms[j], recv[sp..sp + len]);
      OverlaidStep(now, buf[..], was, base, size, off, Flat(ps[..j]), recv[..sp], ps[j], recv[sp..sp + len],
                   base + ms[j]);
      assert recv[..sp] + recv[sp..sp + len] == recv[..sp + len];
      sp := sp + len;
    }
    assert ps[..|ps|] == ps && recv[..sp] == recv;
  }

  lemma OverlaidStart(was: seq<Byte>, base: nat, size: nat, off: int)
    requires base + size <= |was|
    ensures Overlaid(was, was, base, size, off, [], [])
  {
  }

  // ---------- All processes of one window ----------

  ghost predicate OverlaidAll(now: seq<Byte>, was: seq<Byte>, base: nat, size: nat, off: int, offs: seq<seq<int>>,
                              data: seq<seq<Byte>>)
    requires Matching(offs, data)
  {
    && |now| == |was| && base + size <= |now|
    && (forall j :: base <= j < base + size ==> now[j] == PutAll(was[j], offs, data, off + (j - base)))
    && (forall j :: 0 <= j < |now| && !(base <= j < base + size) ==> now[j] == was[j])
  }

  lemma OverlaidAllStep(now: seq<Byte>, next: seq<Byte>, was: seq<Byte>, base: nat, size: nat, off: int,
                        offs: seq<seq<int>>, data: seq<seq<Byte>>, i: nat, q: nat)
    requires Matching(offs, data) && i < |offs| && q == i + 1
    requires OverlaidAll(now, was, base, size, off, offs[..i], data[..i])
    requires Overlaid(next, now, base, size, off, offs[i], data[i])
    ensures OverlaidAll(next, was, base, size, off, offs[..q], data[..q])
  {
    assert offs[..q][..i] == offs[..i] && data[..q][..i] == data[..i];
    forall j | base <= j < base + size
      ensures next[j] == PutAll(was[j], offs[..q], data[..q], off + (j - base))
    {
      assert now[j] == PutAll(was[j], offs[..i], data[..i], off + (j - base));
    }
  }

  /** The untruncated requests a peer contributed to the round, as the merge sees them. */
  function Untruncated(cs: seq<Extent>, start: nat, count: nat): seq<Extent>
    requires start + count <= |cs|
  {
    cs[start..start + count]
  }

  /** They are sorted, start in the window, and touch there what was requested there. */
  ghost predicate ListFor(us: seq<Extent>, orig: seq<Extent>, lo: int, hi: int) {
    && Sorted(us) && StartsIn(us, lo, hi)
    && forall x :: lo <= x < hi ==> (Touches(us, x) <==> Touches(orig, x))
  }

  lemma UntruncatedFacts(cs: seq<Extent>, ms: seq<int>, orig: seq<Extent>, start: nat, count: nat, ptr: nat,
                         partial: nat, lo: int, hi: int)
    requires Done(cs, ms, orig, start, count, ptr, partial, lo, hi) && Ordered(orig)
    ensures start + count <= |cs|
    ensures ListFor(Untruncated(cs, start, count), orig, lo, hi)
    ensures count == 0 <==> |Flat(Clip(orig, lo, hi))| == 0
  {
    hide Ordered, Done, Flat, Clip, Touches, Sorted, StartsIn;
    DonePartial(cs, ms, orig, start, count, ptr, partial, lo, hi);
    var us := Untruncated(cs, start, count);
    UntruncatedSorted(cs, ms, orig, start, count, ptr, partial, lo, hi);
    ClipInside(orig, lo, hi);
    PositiveFlat(Clip(orig, lo, hi));
    forall x | lo <= x < hi ensures Touches(us, x) <==> Touches(orig, x) {
      CutTouches(cs, start, count, partial, hi, x);
      ClipTouches(orig, lo, hi, x);
    }
  }

  lemma DonePartial(cs: seq<Extent>, ms: seq<int>, orig: seq<Extent>, start: nat, count: nat, ptr: nat, partial: nat,
                    lo: int, hi: int)
    requires Done(cs, ms, orig, start, count, ptr, partial, lo, hi)
    ensures start + count <= |cs| && Pieces(cs, start, count, partial) == Clip(orig, lo, hi)
    ensures partial > 0 && count > 0 ==>
              cs[start + count - 1].off + partial == hi && partial < cs[start + count - 1].len
    ensures count == |Clip(orig, lo, hi)|
  {
    assert |Pieces(cs, start, count, partial)| == count;
  }

  lemma UntruncatedSorted(cs: seq<Extent>, ms: seq<int>, orig: seq<Extent>, start: nat, count: nat, ptr: nat,
                          partial: nat, lo: int, hi: int)
    requires Done(cs, ms, orig, start, count, ptr, partial, lo, hi) && Ordered(orig)
    ensures start + count <= |cs|
    ensures Sorted(Untruncated(cs, start, count)) && StartsIn(Untruncated(cs, start, count), lo, hi)
  {
    hide At, Flat;
    var us, ps := Untruncated(cs, start, count), Pieces(cs, start, count, partial);
    ClipOrdered(orig, lo, hi);
    forall i, j | 0 <= i < j < |us| ensures us[i].off <= us[j].off {
      assert us[i].off == ps[i].off && us[j].off == ps[j].off && ps[i].End() <= ps[j].off;
    }
  }

  lemma PositiveFlat(xs: seq<Extent>)
    requires forall j :: 0 <= j < |xs| ==> xs[j].len > 0
    ensures |Flat(xs)| == 0 <==> xs == []
  {
  }

  lemma {:induction false} AllStartsIn(lists: seq<seq<Extent>>, e: Extent, lo: int, hi: int)
    requires forall i :: 0 <= i < |lists| ==> StartsIn(lists[i], lo, hi)
    requires e in All(lists)
    ensures lo <= e.off < hi
  {
    var n := |lists| - 1;
    if e in multiset(lists[n]) {
      assert e in lists[n];
    } else {
      AllStartsIn(lists[..n], e, lo, hi);
    }
  }

  lemma MergedStartsIn(srt: seq<Extent>, lists: seq<seq<Extent>>, lo: int, hi: int)
    requires forall i :: 0 <= i < |lists| ==> StartsIn(lists[i], lo, hi)
    requires multiset(srt) == All(lists)
    ensures StartsIn(srt, lo, hi)
  {
    forall j | 0 <= j < |srt| ensures lo <= srt[j].off < hi {
      assert srt[j] in multiset(srt);
      AllStartsIn(lists, srt[j], lo, hi);
    }
  }

  ghost predicate ListsFor(lists: seq<seq<Extent>>, origs: seq<seq<Extent>>, lo: int, hi: int) {
    |lists| == |origs| && forall i :: 0 <= i < |lists| ==> ListFor(lists[i], origs[i], lo, hi)
  }

  /** The merge sees a fully covered window exactly when every byte of it was requested. */
  lemma MergedCovers(srt: seq<Extent>, lists: seq<seq<Extent>>, origs: seq<seq<Extent>>, lo: int, hi: int)
    requires multiset(srt) == All(lists) && ListsFor(lists, origs, lo, hi)
    ensures StartsIn(srt, lo, hi)
    ensures Covered(srt, lo, hi) <==> forall x :: lo <= x < hi ==> Requested(origs, x)
  {
    MergedStartsIn(srt, lists, lo, hi);
    forall x | lo <= x < hi ensures Touches(srt, x) <==> Requested(origs, x) {
      MergedTouches(srt, lists, x);
      if i :| 0 <= i < |lists| && Touches(lists[i], x) { assert Touches(origs[i], x); }
      if i :| 0 <= i < |origs| && Touches(origs[i], x) { assert Touches(lists[i], x); }
    }
    if Covered(srt, lo, hi) {
      forall x | lo <= x < hi ensures Requested(origs, x) { assert Touches(srt, x); }
    }
  }

  /** Peer p is at the end of the round over [lo, hi). */
  ghost predicate PeerDone(p: Peer, orig: seq<Extent>, lo: int, hi: int)
    reads p
  {
    p.orig == orig && p.Taken(lo, hi)
  }

  ghost predicate AllDone(peers: seq<Peer>, origs: seq<seq<Extent>>, lo: int, hi: int)
    reads peers
  {
    |peers| == |origs| && forall i :: 0 <= i < |peers| ==> PeerDone(peers[i], origs[i], lo, hi)
  }

  /** One peer's list for the merge. */
  method CollectOne(p: Peer, ghost orig: seq<Extent>, ghost lo: int, ghost hi: int) returns (us: seq<Extent>)
    requires PeerDone(p, orig, lo, hi) && Ordered(orig)
    ensures ListFor(us, orig, lo, hi) && |us| == p.count
    ensures us == [] <==> p.recvSize == 0
  {
    UntruncatedFacts(p.reqs, p.mem, orig, p.start, p.count, p.ptr, p.partial, lo, hi);
    us := Untruncated(p.reqs, p.start, p.count);
  }

  /** The number of processes that sent anything, and of all their pieces. */
  ghost predicate Tallied(lists: seq<seq<Extent>>, nprocsRecv: nat, sum: nat) {
    && nprocsRecv == NonEmpty(lists) && sum == |All(lists)|
    && (nprocsRecv == 0 ==> forall i :: 0 <= i < |lists| ==> lists[i] == [])
    && (nprocsRecv == 0 <==> sum == 0)
  }

  lemma TalliedNone()
    ensures Tallied([], 0, 0)
  {
  }

  lemma TalliedMore(lists: seq<seq<Extent>>, us: seq<Extent>, nprocsRecv: nat, sum: nat)
    requires Tallied(lists, nprocsRecv, sum)
    ensures Tallied(lists + [us], if us == [] then nprocsRecv else nprocsRecv + 1, sum + |us|)
  {
    hide All;
    var all := lists + [us];
    assert all[..|lists|] == lists;
    AllAppend(lists, us);
    assert us != [] ==> |us| > 0;
  }

  /** Collect the lists for the merge, and count what was received. */
  method Collect(peers: seq<Peer>, ghost origs: seq<seq<Extent>>, ghost lo: int, ghost hi: int)
    returns (lists: seq<seq<Extent>>, nprocsRecv: nat, sum: nat)
    requires AllDone(peers, origs, lo, hi) && forall i :: 0 <= i < |origs| ==> Ordered(origs[i])
    ensures ListsFor(lists, origs, lo, hi) && nprocsRecv == NonEmpty(lists) && sum == |All(lists)|
    ensures nprocsRecv == 0 ==> forall i :: 0 <= i < |lists| ==> lists[i] == []
    ensures nprocsRecv == 0 <==> sum == 0
    ensures sum > 0 ==> exists k :: 0 <= k < |peers| && peers[k].recvSize != 0
  {
    hide ListFor, PeerDone, Ordered, Tallied, NonEmpty, All;
    lists, nprocsRecv, sum := [], 0, 0;
    TalliedNone();
    for i := 0 to |peers|
      invariant |lists| == i && Tallied(lists, nprocsRecv, sum)
      invariant forall k :: 0 <= k < i ==> ListFor(lists[k], origs[k], lo, hi)
      invariant sum > 0 ==> exists k :: 0 <= k < i && peers[k].recvSize != 0
    {
      var us := CollectOne(peers[i], origs[i], lo, hi);
      TalliedMore(lists, us, nprocsRecv, sum);
      lists := lists + [us];
      if peers[i].recvSize != 0 { nprocsRecv := nprocsRecv + 1; }
      sum := sum + peers[i].count;
    }
    TallyFacts(lists, nprocsRecv, sum);
  }

  lemma TallyFacts(lists: seq<seq<Extent>>, nprocsRecv: nat, sum: nat)
    requires Tallied(lists, nprocsRecv, sum)
    ensures nprocsRecv == NonEmpty(lists) && sum == |All(lists)|
    ensures nprocsRecv == 0 ==> forall i :: 0 <= i < |lists| ==> lists[i] == []
    ensures nprocsRecv == 0 <==> sum == 0
  {
  }

  /** Is anything missing from the window?  Never missed, and if the processes' pieces
      have no byte in common never reported without need. */
  method FindHole(lists: seq<seq<Extent>>, nprocsRecv: nat, sum: nat, off: int, size: nat,
                  ghost origs: seq<seq<Extent>>)
    returns (hole: bool)
    requires ListsFor(lists, origs, off, off + size) && size > 0
    requires nprocsRecv == NonEmpty(lists) && sum == |All(lists)| > 0
    ensures !hole ==> forall x :: off <= x < off + size ==> Requested(origs, x)
    ensures ProcessesApart(lists) && (forall i :: 0 <= i < |lists| ==> Ordered(lists[i]) && Positive(lists[i])) ==>
              (hole <==> exists x :: off <= x < off + size && !Requested(origs, x))
  {
    hide Covered, Requested, StartsIn, Nondecreasing, Ordered, Positive, ProcessesApart, EndsSorted, Reported;
    ListsSorted(lists, origs, off, off + size);
    var srt := Merge(lists, nprocsRecv, sum);
    MergedCovers(srt[..], lists, origs, off, off + size);
    hole := PairwiseHole(srt, off, size);
    if ProcessesApart(lists) && forall i :: 0 <= i < |lists| ==> Ordered(lists[i]) && Positive(lists[i]) {
      MergedEndsSorted(srt[..], lists);
    }
  }

  lemma ListsSorted(lists: seq<seq<Extent>>, origs: seq<seq<Extent>>, lo: int, hi: int)
    requires ListsFor(lists, origs, lo, hi)
    ensures forall i :: 0 <= i < |lists| ==> Sorted(lists[i])
  {
    forall i | 0 <= i < |lists| ensures Sorted(lists[i]) { assert ListFor(lists[i], origs[i], lo, hi); }
  }

  /** Copy every process's bytes into the window, in rank order. */
  method ScatterAll(buf: array<Byte>, base: nat, size: nat, off: int, peers: seq<Peer>, recv: seq<seq<Byte>>,
                    ghost origs: seq<seq<Extent>>)
    requires base + size <= buf.Length && AllDone(peers, origs, off, off + size)
    requires Matching(Clips(origs, off, off + size), recv)
    modifies buf
    ensures OverlaidAll(buf[..], old(buf[..]), base, size, off, Clips(origs, off, off + size), recv)
  {
    hide OverlaidAll, Overlaid, PeerDone;
    ghost var was, offs := buf[..], Clips(origs, off, off + size);
    assert offs[..0] == [] && recv[..0] == [];
    OverlaidNone(was, base, size, off);
    for i := 0 to |peers|
      invariant OverlaidAll(buf[..], was, base, size, off, offs[..i], recv[..i])
    {
      ghost var now := buf[..];
      if peers[i].recvSize != 0 {
        var ps, ms := PeerPieces(peers[i], origs[i], off, size);
        ScatterOne(buf, base, size, off, ps, ms, recv[i]);
      } else {
        NothingToScatter(now, base, size, off, peers[i], origs[i], recv[i]);
      }
      OverlaidAllStep(now, buf[..], was, base, size, off, offs, recv, i, i + 1);
    }
    assert offs[..|offs|] == offs && recv[..|recv|] == recv;
  }

  lemma OverlaidNone(was: seq<Byte>, base: nat, size: nat, off: int)
    requires base + size <= |was|
    ensures OverlaidAll(was, was, base, size, off, [], [])
  {
  }

  lemma NothingToScatter(now: seq<Byte>, base: nat, size: nat, off: int, p: Peer, orig: seq<Extent>, recv: seq<Byte>)
    requires PeerDone(p, orig, off, off + size) && p.recvSize == 0 && base + size <= |now|
    requires |Flat(Clip(orig, off, off + size))| == |recv|
    ensures Overlaid(now, now, base, size, off, Flat(Clip(orig, off, off + size)), recv)
  {
    assert Flat(Clip(orig, off, off + size)) == [] && recv == [];
  }

  /** The pieces to scatter, with the last length cut off, and their buffer positions. */
  method PeerPieces(p: Peer, ghost orig: seq<Extent>, off: int, size: nat) returns (ps: seq<Extent>, ms: seq<int>)
    requires PeerDone(p, orig, off, off + size)
    ensures ps == Clip(orig, off, off + size) && |ms| == |ps|
    ensures forall t :: 0 <= t < |ps| ==> ms[t] == ps[t].off - off && off <= ps[t].off && ps[t].End() <= off + size
  {
    hide Clip, Flat, At, Front;
    ps := Pieces(p.reqs, p.start, p.count, p.partial);
    ms := p.mem[p.start..p.start + p.count];
    ClipInside(orig, off, off + size);
    PiecesPlaced(p.reqs, p.mem, p.start, p.count, p.partial, off, off + size);
  }

  lemma PiecesPlaced(cs: seq<Extent>, ms: seq<int>, start: nat, count: nat, partial: nat, lo: int, hi: int)
    requires |cs| == |ms| && start + count <= |cs| && Placed(cs, ms, start, start + count, lo, hi)
    ensures forall t :: 0 <= t < count ==> ms[start..start + count][t] == Pieces(cs, start, count, partial)[t].off - lo
  {
    forall t | 0 <= t < count ensures ms[start..start + count][t] == Pieces(cs, start, count, partial)[t].off - lo {
      assert ms[start + t] == cs[start + t].off - lo;
    }
  }

  /** Fill the window: afterwards it holds, byte for byte, what the file should hold. */
  method FillWindow(peers: seq<Peer>, recv: seq<seq<Byte>>, buf: array<Byte>, base: nat, off: int, size: nat,
                    disk: Disk, ghost origs: seq<seq<Extent>>, ghost data: seq<seq<Byte>>)
    returns (flag: bool)
    requires size > 0 && base + size <= buf.Length && Legal(origs) && Fits(origs, data)
    requires AllDone(peers, origs, off, off + size) && IsRecv(origs, data, recv, off, off + size)
    modifies buf
    ensures flag ==> forall j :: base <= j < base + size ==>
              buf[j] == Target(origs, data, disk.image(off + (j - base)), off + (j - base))
    ensures flag <==> Busy(origs, off, off + size)
    ensures forall j :: 0 <= j < buf.Length && !(base <= j < base + size) ==> buf[j] == old(buf[j])
  {
    hide ListFor, ListsFor, AllDone, IsRecv, Requested, PutAll, Target;
    assert forall i :: 0 <= i < |origs| ==> Ordered(origs[i]);
    RecvMatches(origs, data, recv, off, off + size);
    var lists, nprocsRecv, sum := Collect(peers, origs, off, off + size);
    flag := sum > 0;
    var hole := false;
    if nprocsRecv > 0 {
      hole := FindHole(lists, nprocsRecv, sum, off, size, origs);
      if hole {
        disk.ReadContig(buf, base, off, size);
      }
    }
    ghost var was := buf[..];
    ScatterAll(buf, base, size, off, peers, recv, origs);
    if flag {
      SomeRequested(peers, origs, off, off + size);
      forall j | base <= j < base + size
        ensures buf[j] == Target(origs, data, disk.image(off + (j - base)), off + (j - base))
      {
        var x := off + (j - base);
        assert buf[..][j] == PutAll(was[j], Clips(origs, off, off + size), recv, x);
        WindowTarget(origs, data, recv, off, off + size, was[j], x);
        if !hole { RequestedTarget(origs, data, was[j], disk.image(x), x); }
      }
    } else {
      NoneRequested(lists, origs, off, off + size);
    }
    forall j | 0 <= j < buf.Length && !(base <= j < base + size) ensures buf[j] == old(buf[j]) {
      assert buf[..][j] == was[j];
    }
  }

  /** Somebody asked for a byte of the window. */
  ghost predicate Busy(origs: seq<seq<Extent>>, lo: int, hi: int) {
    exists x :: lo <= x < hi && Requested(origs, x)
  }

  lemma SomeRequested(peers: seq<Peer>, origs: seq<seq<Extent>>, lo: int, hi: int)
    requires AllDone(peers, origs, lo, hi) && exists k :: 0 <= k < |peers| && peers[k].recvSize != 0
    ensures Busy(origs, lo, hi)
  {
    hide Done, Clip, Flat, Touches;
    var k :| 0 <= k < |peers| && peers[k].recvSize != 0;
    assert PeerDone(peers[k], origs[k], lo, hi);
    var c := Clip(origs[k], lo, hi);
    var x := Flat(c)[0];
    WindowByte(origs[k], lo, hi, x);
    assert Touches(origs[k], x) && Requested(origs, x);
  }

  lemma WindowByte(orig: seq<Extent>, lo: int, hi: int, x: int)
    requires x in Flat(Clip(orig, lo, hi))
    ensures lo <= x < hi && Touches(orig, x)
  {
    hide Clip, Flat;
    var c := Clip(orig, lo, hi);
    FlatHas(c, x);
    ClipInside(orig, lo, hi);
    assert Touches(c, x);
    ClipTouches(orig, lo, hi, x);
  }

  lemma NoneRequested(lists: seq<seq<Extent>>, origs: seq<seq<Extent>>, lo: int, hi: int)
    requires ListsFor(lists, origs, lo, hi) && forall i :: 0 <= i < |lists| ==> lists[i] == []
    ensures forall x :: lo <= x < hi ==> !Requested(origs, x)
  {
    forall x, i | lo <= x < hi && 0 <= i < |origs| ensures !Touches(origs[i], x) {
      assert ListFor(lists[i], origs[i], lo, hi);
      assert !Touches(lists[i], x);
    }
  }

  // ---------- The round loop ----------

  ghost predicate AllReady(peers: seq<Peer>, origs: seq<seq<Extent>>, b: int)
    reads peers
  {
    |peers| == |origs| && forall i :: 0 <= i < |peers| ==> peers[i].orig == origs[i] && peers[i].Ready(b)
  }

  /** The consumption step of one round, for every process. */
  method ConsumeAll(peers: seq<Peer>, off: int, size: nat, ghost origs: seq<seq<Extent>>) returns (err: bool)
    requires Distinct(peers) && AllReady(peers, origs, off) && size > 0
    modifies peers
    ensures AllDone(peers, origs, off, off + size) && AllReady(peers, origs, off + size)
    ensures !err
  {
    hide Peer.Ready, Peer.Taken;
    err := false;
    for i := 0 to |peers|
      invariant forall k :: 0 <= k < i ==> PeerDone(peers[k], origs[k], off, off + size) && peers[k].Ready(off + size)
      invariant forall k :: i <= k < |peers| ==> peers[k].Ready(off)
      invariant !err
    {
      var e := peers[i].Consume(off, size);
      if e { err := true; }
    }
  }

  /** All requests lie in [st, end], st and end being reached when there are any. */
  ghost predicate Spans(origs: seq<seq<Extent>>, st: int, end: int) {
    forall i, j :: 0 <= i < |origs| && 0 <= j < |origs[i]| ==> st <= origs[i][j].off && origs[i][j].End() - 1 <= end
  }

  ghost predicate NonNegative(origs: seq<seq<Extent>>) {
    forall i, j :: 0 <= i < |origs| && 0 <= j < |origs[i]| ==> origs[i][j].off >= 0
  }

  lemma SpansRequested(origs: seq<seq<Extent>>, st: int, end: int, x: int)
    requires Spans(origs, st, end) && (x < st || end < x)
    ensures !Requested(origs, x)
  {
    forall i | 0 <= i < |origs| ensures !Touches(origs[i], x) {
      forall j | 0 <= j < |origs[i]| ensures !origs[i][j].Has(x) {
        assert st <= origs[i][j].off && origs[i][j].End() - 1 <= end;
      }
    }
  }

  /** The first and last byte this aggregator is asked for; -1 and -1 if there is none. */
  method FindSpan(reqs: seq<seq<Extent>>) returns (st: int, end: int)
    requires NonNegative(reqs) && forall i :: 0 <= i < |reqs| ==> Positive(reqs[i])
    ensures Spans(reqs, st, end)
    ensures (st == -1 && end == -1) || 0 <= st <= end
    ensures st == -1 ==> forall i :: 0 <= i < |reqs| ==> reqs[i] == []
    ensures st != -1 ==> Requested(reqs, st) && Requested(reqs, end)
  {
    hide Requested;
    st, end := -1, -1;
    var i := 0;
    while i < |reqs| && st == -1
      invariant 0 <= i <= |reqs|
      invariant st == -1 ==> end == -1 && forall k :: 0 <= k < i ==> reqs[k] == []
      invariant st != -1 ==> 0 <= st == end && Requested(reqs, st)
      decreases |reqs| - i
    {
      if |reqs[i]| != 0 {
        EndsRequested(reqs, i, 0);
        st, end := reqs[i][0].off, reqs[i][0].off;
      }
      i := i + 1;
    }
    ghost var some := st != -1;
    for i := 0 to |reqs|
      invariant some ==> 0 <= st <= end && Requested(reqs, st) && Requested(reqs, end)
      invariant !some ==> st == end == -1 && forall k :: 0 <= k < |reqs| ==> reqs[k] == []
      invariant Spans(reqs[..i], st, end)
    {
      for j := 0 to |reqs[i]|
        invariant some ==> 0 <= st <= end && Requested(reqs, st) && Requested(reqs, end)
        invariant !some ==> st == end == -1
        invariant Spans(reqs[..i], st, end)
        invariant forall k :: 0 <= k < j ==> st <= reqs[i][k].off && reqs[i][k].End() - 1 <= end
      {
        ghost var st0, end0 := st, end;
        EndsRequested(reqs, i, j);
        st := Min(st, reqs[i][j].off);
        end := Max(end, reqs[i][j].off + reqs[i][j].len - 1);
        SpansWiden(reqs[..i], st0, end0, st, end);
      }
    }
    assert reqs[..|reqs|] == reqs;
  }

  /** `n` is the number of windows of cb bytes from the first to the last requested byte. */
  ghost predicate InRounds(reqs: seq<seq<Extent>>, n: nat, cb: nat)
    requires cb > 0
  {
    && ((forall x :: !Requested(reqs, x)) ==> n == 0)
    && forall st, end :: IsSpan(reqs, st, end) ==> st <= end && n == RoundCount(end - st + 1, cb)
  }

  /** st and end are the first and the last requested byte. */
  ghost predicate IsSpan(reqs: seq<seq<Extent>>, st: int, end: int) {
    Requested(reqs, st) && Requested(reqs, end) && forall x :: Requested(reqs, x) ==> st <= x <= end
  }

  lemma SpanIs(reqs: seq<seq<Extent>>, st: int, end: int)
    requires Spans(reqs, st, end) && Requested(reqs, st) && Requested(reqs, end)
    ensures IsSpan(reqs, st, end)
  {
    hide Requested, Spans;
    forall x | Requested(reqs, x) ensures st <= x <= end {
      if x < st || end < x { SpansRequested(reqs, st, end, x); }
    }
  }

  lemma RoundsOfSpan(reqs: seq<seq<Extent>>, st: int, end: int, n: nat, cb: nat)
    requires cb > 0 && st <= end && n == RoundCount(end - st + 1, cb)
    requires Spans(reqs, st, end) && Requested(reqs, st) && Requested(reqs, end)
    ensures InRounds(reqs, n, cb) && IsSpan(reqs, st, end)
  {
    hide Requested, Spans, RoundCount;
    SpanIs(reqs, st, end);
    forall st', end' | IsSpan(reqs, st', end') ensures st' == st && end' == end { }
  }

  lemma NoRounds(reqs: seq<seq<Extent>>, cb: nat)
    requires cb > 0 && forall i :: 0 <= i < |reqs| ==> reqs[i] == []
    ensures InRounds(reqs, 0, cb)
  {
    forall x ensures !Requested(reqs, x) { }
  }

  lemma SpansWiden(origs: seq<seq<Extent>>, st0: int, end0: int, st: int, end: int)
    requires Spans(origs, st0, end0) && st <= st0 && end0 <= end
    ensures Spans(origs, st, end)
  {
    forall i, j | 0 <= i < |origs| && 0 <= j < |origs[i]|
      ensures st <= origs[i][j].off && origs[i][j].End() - 1 <= end
    {
      assert st0 <= origs[i][j].off && origs[i][j].End() - 1 <= end0;
    }
  }

  /** The file after all windows below `b`: requested bytes below `b` are in place. */
  ghost predicate WrittenTo(image: Image, init: Image, origs: seq<seq<Extent>>, data: seq<seq<Byte>>, b: int)
    requires Fits(origs, data)
  {
    forall x :: image(x) == if x < b then Target(origs, data, init(x), x) else init(x)
  }

  lemma WrittenStart(init: Image, origs: seq<seq<Extent>>, data: seq<seq<Byte>>, st: int, end: int)
    requires Fits(origs, data) && Spans(origs, st, end)
    ensures WrittenTo(init, init, origs, data, st)
  {
    forall x | x < st ensures Target(origs, data, init(x), x) == init(x) {
      SpansRequested(origs, st, end, x);
      UnrequestedTarget(origs, data, init(x), x);
    }
  }

  lemma WrittenEnd(image: Image, init: Image, origs: seq<seq<Extent>>, data: seq<seq<Byte>>, st: int, end: int, x: int)
    requires Fits(origs, data) && Spans(origs, st, end) && WrittenTo(image, init, origs, data, end + 1)
    ensures image(x) == Target(origs, data, init(x), x)
  {
    if x > end {
      SpansRequested(origs, st, end, x);
      UnrequestedTarget(origs, data, init(x), x);
    }
  }

  lemma WrittenStep(image: Image, image': Image, init: Image, origs: seq<seq<Extent>>, data: seq<seq<Byte>>, b: int,
                    b': int, flag: bool)
    requires Fits(origs, data) && WrittenTo(image, init, origs, data, b) && b <= b'
    requires flag ==> forall x :: image'(x) == if b <= x < b' then Target(origs, data, image(x), x) else image(x)
    requires !flag ==> image' == image && !Busy(origs, b, b')
    ensures WrittenTo(image', init, origs, data, b')
  {
    forall x ensures image'(x) == if x < b' then Target(origs, data, init(x), x) else init(x) {
      if !flag && b <= x < b' { UnrequestedTarget(origs, data, init(x), x); }
    }
  }

  ghost predicate SentTo(sent: seq<nat>, origs: seq<seq<Extent>>, b: int) {
    |sent| == |origs| && forall i :: 0 <= i < |sent| ==> sent[i] == Below(origs[i], b)
  }

  /** What the processes send in this round: each the next recv_size bytes of its stream. */
  method NextSlices(peers: seq<Peer>, streams: seq<seq<Byte>>, sent: seq<nat>, ghost origs: seq<seq<Extent>>,
                    ghost lo: int, ghost hi: int)
    returns (recv: seq<seq<Byte>>, sent': seq<nat>)
    requires Legal(origs) && Fits(origs, streams) && lo <= hi
    requires AllDone(peers, origs, lo, hi) && SentTo(sent, origs, lo)
    ensures IsRecv(origs, streams, recv, lo, hi) && SentTo(sent', origs, hi)
  {
    recv, sent' := [], [];
    hide Ordered, Flat, Clip, Below, Done, Positive, Slice;
    for i := 0 to |peers|
      invariant |recv| == |sent'| == i
      invariant forall k :: 0 <= k < i ==> recv[k] == Slice(origs[k], streams[k], lo, hi)
      invariant forall k :: 0 <= k < i ==> sent'[k] == Below(origs[k], hi)
    {
      NextSlice(peers[i], origs[i], streams[i], sent[i], sent[i] + peers[i].recvSize, lo, hi);
      recv := recv + [streams[i][sent[i]..sent[i] + peers[i].recvSize]];
      sent' := sent' + [sent[i] + peers[i].recvSize];
    }
  }

  lemma NextSlice(p: Peer, orig: seq<Extent>, stream: seq<Byte>, s: nat, e: nat, lo: int, hi: int)
    requires PeerDone(p, orig, lo, hi) && Ordered(orig) && |stream| == |Flat(orig)| && lo <= hi
    requires s == Below(orig, lo) && e == s + p.recvSize
    ensures e == Below(orig, hi) <= |stream| && stream[s..e] == Slice(orig, stream, lo, hi)
  {
    ClipIsSlice(orig, lo, hi);
  }

  /** One round. */
  method Round(peers: seq<Peer>, streams: seq<seq<Byte>>, sent: seq<nat>, buf: array<Byte>, off: int, size: nat,
               disk: Disk, ghost origs: seq<seq<Extent>>, ghost init: Image)
    returns (sent': seq<nat>)
    requires size > 0 && size <= buf.Length && Legal(origs) && Fits(origs, streams)
    requires Distinct(peers) && AllReady(peers, origs, off) && SentTo(sent, origs, off)
    requires WrittenTo(disk.image, init, origs, streams, off)
    modifies peers, buf, disk
    ensures AllReady(peers, origs, off + size) && SentTo(sent', origs, off + size)
    ensures WrittenTo(disk.image, init, origs, streams, off + size)
    ensures disk.log == old(disk.log) + if Busy(origs, off, off + size) then [Extent(off, size)] else []
  {
    hide *;
    var err := ConsumeAll(peers, off, size, origs);
    var recv;
    recv, sent' := NextSlices(peers, streams, sent, origs, off, off + size);
    var flag := FillWindow(peers, recv, buf, 0, off, size, disk, origs, streams);
    ghost var image := disk.image;
    if flag {
      disk.WriteContig(buf, 0, off, size);
    }
    WrittenStep(image, disk.image, init, origs, streams, off, off + size, flag);
  }

  /** The aggregator's whole run: afterwards the file is as if every process had written
      its requests directly, in rank order, and nothing else changed. */
  method ExchAndWrite(peers: seq<Peer>, reqs: seq<seq<Extent>>, streams: seq<seq<Byte>>, cb: nat, buf: array<Byte>,
                      disk: Disk)
    requires cb > 0 && cb <= buf.Length && Legal(reqs) && NonNegative(reqs) && Fits(reqs, streams)
    requires Distinct(peers) && |peers| == |reqs|
    requires forall i :: 0 <= i < |peers| ==>
               peers[i].orig == peers[i].reqs == reqs[i] && |peers[i].mem| == |reqs[i]| &&
               peers[i].ptr == peers[i].partial == 0
    modifies peers, buf, disk
    ensures forall x :: disk.image(x) == Target(reqs, streams, old(disk.image)(x), x)
    ensures forall i :: 0 <= i < |peers| ==> peers[i].ptr == |reqs[i]| && peers[i].partial == 0
    ensures LoggedFor(old(disk.log), disk.log, reqs, cb)
  {
    hide LoggedFor;
    var st, end := FindSpan(reqs);
    ghost var init := disk.image;
    SomeRounds(st, end, cb);
    var ntimes := (end - st + cb) / cb;
    if st == -1 && end == -1 {
      ntimes := 0;
    }
    StartReady(peers, reqs, st, end);
    WrittenStart(init, reqs, streams, st, end);
    if ntimes != 0 {
      RunRounds(peers, streams, cb, buf, disk, st, end, ntimes, reqs, init);
      FinalReady(peers, reqs, st, end);
      LoggedSpan(old(disk.log), disk.log, reqs, cb, st, end);
      forall x ensures disk.image(x) == Target(reqs, streams, init(x), x) {
        WrittenEnd(disk.image, init, reqs, streams, st, end, x);
      }
    } else {
      LoggedNone(disk.log, reqs, cb);
      forall x ensures init(x) == Target(reqs, streams, init(x), x) {
        assert !Requested(reqs, x);
        UnrequestedTarget(reqs, streams, init(x), x);
      }
    }
  }

  /** The writes made are one for each window of cb bytes, from the first to the last
      requested byte, in which anything was requested. */
  ghost predicate LoggedFor(log: seq<Extent>, log': seq<Extent>, reqs: seq<seq<Extent>>, cb: nat)
    requires cb > 0
  {
    && ((forall x :: !Requested(reqs, x)) ==> log' == log)
    && forall st, end :: IsSpan(reqs, st, end) ==>
         st <= end && log' == log + BusyWindows(reqs, st, end - st + 1, cb, RoundCount(end - st + 1, cb))
  }

  lemma LoggedSpan(log: seq<Extent>, log': seq<Extent>, reqs: seq<seq<Extent>>, cb: nat, st: int, end: int)
    requires cb > 0 && st <= end && Spans(reqs, st, end) && Requested(reqs, st) && Requested(reqs, end)
    requires log' == log + BusyWindows(reqs, st, end - st + 1, cb, RoundCount(end - st + 1, cb))
    ensures LoggedFor(log, log', reqs, cb)
  {
    hide Requested, Spans, RoundCount, BusyWindows;
    SpanIs(reqs, st, end);
    forall st', end' | IsSpan(reqs, st', end') ensures st' == st && end' == end { }
  }

  lemma LoggedNone(log: seq<Extent>, reqs: seq<seq<Extent>>, cb: nat)
    requires cb > 0 && forall i :: 0 <= i < |reqs| ==> reqs[i] == []
    ensures LoggedFor(log, log, reqs, cb)
  {
    forall x ensures !Requested(reqs, x) { }
  }

  lemma DivAtLeastOne(a: int, b: nat)
    requires b > 0 && a >= b
    ensures a / b >= 1
  {
    var q, r := a / b, a % b;
    assert a == b * q + r;
  }

  lemma SomeRounds(st: int, end: int, cb: nat)
    requires cb > 0 && st <= end
    ensures (end - st + cb) / cb == RoundCount(end - st + 1, cb) > 0
  {
    assert end - st + cb == (end - st + 1) + cb - 1;
    DivAtLeastOne(end - st + cb, cb);
  }

  /** The loop over the windows from st to end. */
  method RunRounds(peers: seq<Peer>, streams: seq<seq<Byte>>, cb: nat, buf: array<Byte>, disk: Disk, st: int,
                   end: int, ntimes: nat, ghost origs: seq<seq<Extent>>, ghost init: Image)
    requires cb > 0 && cb <= buf.Length && Legal(origs) && Fits(origs, streams)
    requires Distinct(peers) && AllReady(peers, origs, st) && SentTo(seq(|peers|, _ => 0), origs, st)
    requires WrittenTo(disk.image, init, origs, streams, st)
    requires st <= end && ntimes == RoundCount(end - st + 1, cb)
    modifies peers, buf, disk
    ensures AllReady(peers, origs, end + 1)
    ensures WrittenTo(disk.image, init, origs, streams, end + 1)
    ensures disk.log == old(disk.log) + BusyWindows(origs, st, end - st + 1, cb, ntimes)
  {
    hide *;
    ghost var total := end - st + 1;
    var off, done := st, 0;
    var sent: seq<nat> := seq(|peers|, _ => 0);
    CoversAll(total, cb);
    NoWindows(origs, st, total, cb);
    for m := 0 to ntimes
      invariant done == Covers(m, total, cb) && off == st + done
      invariant disk.log == old(disk.log) + BusyWindows(origs, st, total, cb, m)
      invariant AllReady(peers, origs, off) && SentTo(sent, origs, off)
      invariant WrittenTo(disk.image, init, origs, streams, off)
    {
      CoversStep(m, total, cb);
      var size := Least(cb, end - st + 1 - done);
      sent := Round(peers, streams, sent, buf, off, size, disk, origs, init);
      OneMoreWindow(origs, st, total, cb, m, off, size);
      off := off + size;
      done := done + size;
    }
  }

  /** The windows with requested bytes among the first m, in order. */
  ghost function BusyWindows(origs: seq<seq<Extent>>, st: int, total: nat, cb: nat, m: nat): seq<Extent> {
    if m == 0 then []
    else
      var a, b := Covers(m - 1, total, cb), Covers(m, total, cb);
      BusyWindows(origs, st, total, cb, m - 1) +
      if a < b && Busy(origs, st + a, st + b) then [Extent(st + a, b - a)] else []
  }

  lemma NoWindows(origs: seq<seq<Extent>>, st: int, total: nat, cb: nat)
    ensures BusyWindows(origs, st, total, cb, 0) == []
  {
  }

  lemma OneMoreWindow(origs: seq<seq<Extent>>, st: int, total: nat, cb: nat, m: nat, off: int, size: nat)
    requires size > 0 && off == st + Covers(m, total, cb) && Covers(m + 1, total, cb) == Covers(m, total, cb) + size
    ensures BusyWindows(origs, st, total, cb, m + 1) ==
            BusyWindows(origs, st, total, cb, m) + if Busy(origs, off, off + size) then [Extent(off, size)] else []
  {
  }

  method Least(a: int, b: int) returns (m: int)
    ensures m == Min(a, b)
  {
    m := if a <= b then a else b;
  }

  lemma FinalReady(peers: seq<Peer>, reqs: seq<seq<Extent>>, st: int, end: int)
    requires AllReady(peers, reqs, end + 1) && Spans(reqs, st, end) && Legal(reqs)
    ensures forall i :: 0 <= i < |peers| ==> peers[i].ptr == |reqs[i]| && peers[i].partial == 0
  {
    forall i | 0 <= i < |peers| ensures peers[i].ptr == |reqs[i]| && peers[i].partial == 0 {
      var p := peers[i];
      assert p.Ready(end + 1);
      forall j | 0 <= j < |reqs[i]| ensures reqs[i][j].End() <= end + 1 && reqs[i][j].len > 0 { }
    }
  }

  lemma StartReady(peers: seq<Peer>, reqs: seq<seq<Extent>>, st: int, end: int)
    requires |peers| == |reqs| && Legal(reqs) && Spans(reqs, st, end)
    requires forall i :: 0 <= i < |peers| ==>
               peers[i].orig == peers[i].reqs == reqs[i] && |peers[i].mem| == |reqs[i]| &&
               peers[i].ptr == peers[i].partial == 0
    ensures AllReady(peers, reqs, st) && SentTo(seq(|peers|, _ => 0), reqs, st)
  {
    forall i | 0 <= i < |reqs| ensures Below(reqs[i], st) == 0 && peers[i].Ready(st) {
      forall j | 0 <= j < |reqs[i]| ensures st <= reqs[i][j].off { }
      BelowAll(reqs[i], st);
    }
  }
}
