/**
 The two hole checks see different lists: one exchange cuts the last length of each
 process off at the window's end before merging and coalesces, the other merges the uncut
 lengths and compares neighbours.  When different processes ask for different bytes the
 two give the same answer.
 */
module HoleVariants {
  import opened Extents
  import opened HeapMerge
  import opened Windows
  import opened Holes
  import opened DisjointLists
  import opened Rounds
  import opened Writer

  /** The lists of both variants at the end of a round over [lo, hi). */
  ghost predicate Variants(cuts: seq<seq<Extent>>, fulls: seq<seq<Extent>>, peers: seq<Peer>,
                           origs: seq<seq<Extent>>, lo: int, hi: int)
    reads peers
    requires AllDone(peers, origs, lo, hi)
  {
    && |cuts| == |fulls| == |peers|
    && forall i :: 0 <= i < |peers| ==>
         && peers[i].Taken(lo, hi)
         && cuts[i] == Pieces(peers[i].reqs, peers[i].start, peers[i].count, peers[i].partial)
         && fulls[i] == Untruncated(peers[i].reqs, peers[i].start, peers[i].count)
  }

  /** Uncut pieces are ordered, not empty, and touch only what the process asked for. */
  lemma FullFacts(cs: seq<Extent>, ms: seq<int>, orig: seq<Extent>, start: nat, count: nat, ptr: nat, partial: nat,
                  lo: int, hi: int)
    requires Done(cs, ms, orig, start, count, ptr, partial, lo, hi) && Ordered(orig) && Positive(orig)
    ensures Ordered(Untruncated(cs, start, count)) && Positive(Untruncated(cs, start, count))
    ensures forall x :: Touches(Untruncated(cs, start, count), x) ==> Touches(orig, x)
  {
    hide Flat, Clip, Touches;
    var us, ps := Untruncated(cs, start, count), Pieces(cs, start, count, partial);
    ClipOrdered(orig, lo, hi);
    ClipInside(orig, lo, hi);
    assert forall t :: 0 <= t < |us| ==>
        us[t].off == ps[t].off && ps[t].len <= us[t].len && (t < |us| - 1 ==> us[t] == ps[t]);
    forall i, j | 0 <= i < j < |us| ensures us[i].End() <= us[j].off {
      assert ps[i].End() <= ps[j].off;
    }
    forall x | Touches(us, x) ensures Touches(orig, x) {
      FullTouches(cs, ms, orig, start, count, ptr, partial, lo, hi, x);
    }
  }

  lemma FullTouches(cs: seq<Extent>, ms: seq<int>, orig: seq<Extent>, start: nat, count: nat, ptr: nat, partial: nat,
                    lo: int, hi: int, x: int)
    requires Done(cs, ms, orig, start, count, ptr, partial, lo, hi) && Ordered(orig) && Positive(orig)
    requires Touches(Untruncated(cs, start, count), x)
    ensures Touches(orig, x)
  {
    hide Flat, Clip;
    var us, ps := Untruncated(cs, start, count), Pieces(cs, start, count, partial);
    var t :| 0 <= t < |us| && us[t].Has(x);
    if t == count - 1 && partial > 0 {
      assert us[t] == cs[ptr] && orig[ptr].Has(x);
    } else {
      assert ps[t].Has(x);
      ClipInside(orig, lo, hi);
      ClipTouches(orig, lo, hi, x);
    }
  }

  /** The cut pieces: sorted, in the window, touching there what was asked for there. */
  lemma CutFacts(orig: seq<Extent>, lo: int, hi: int)
    requires Ordered(orig)
    ensures ListFor(Clip(orig, lo, hi), orig, lo, hi)
  {
    ClipOrdered(orig, lo, hi);
    ClipInside(orig, lo, hi);
    var c := Clip(orig, lo, hi);
    forall i, j | 0 <= i < j < |c| ensures c[i].off <= c[j].off { assert c[i].End() <= c[j].off; }
    forall x | lo <= x < hi ensures Touches(c, x) <==> Touches(orig, x) { ClipTouches(orig, lo, hi, x); }
  }

  lemma VariantFacts(cuts: seq<seq<Extent>>, fulls: seq<seq<Extent>>, peers: seq<Peer>, origs: seq<seq<Extent>>,
                     lo: int, hi: int)
    requires AllDone(peers, origs, lo, hi) && Variants(cuts, fulls, peers, origs, lo, hi) && Legal(origs)
    requires ProcessesApart(origs)
    ensures ListsFor(cuts, origs, lo, hi) && ListsFor(fulls, origs, lo, hi)
    ensures ProcessesApart(fulls) && forall i :: 0 <= i < |fulls| ==> Ordered(fulls[i]) && Positive(fulls[i])
  {
    hide Done, Ordered, Positive, Touches, ListFor, Flat, Clip, Pieces, Untruncated;
    forall i | 0 <= i < |peers|
      ensures ListFor(cuts[i], origs[i], lo, hi) && ListFor(fulls[i], origs[i], lo, hi) && Ordered(fulls[i])
      ensures Positive(fulls[i])
      ensures forall x :: Touches(fulls[i], x) ==> Touches(origs[i], x)
    {
      var p := peers[i];
      assert p.orig == origs[i];
      DonePartial(p.reqs, p.mem, p.orig, p.start, p.count, p.ptr, p.partial, lo, hi);
      FullFacts(p.reqs, p.mem, p.orig, p.start, p.count, p.ptr, p.partial, lo, hi);
      UntruncatedFacts(p.reqs, p.mem, p.orig, p.start, p.count, p.ptr, p.partial, lo, hi);
      CutFacts(p.orig, lo, hi);
    }
    forall i, j | 0 <= i < j < |fulls| ensures NoCommonByte(fulls[i], fulls[j]) {
      assert NoCommonByte(origs[i], origs[j]);
    }
  }

  /** Whatever the two scans report on their merged lists, they report the same. */
  lemma {:induction false} HolesAgree(srtCut: seq<Extent>, srtFull: seq<Extent>, cuts: seq<seq<Extent>>,
                                      fulls: seq<seq<Extent>>, peers: seq<Peer>, origs: seq<seq<Extent>>, lo: int,
                                      hi: int, coalesced: bool, pairwise: bool)
    requires AllDone(peers, origs, lo, hi) && Variants(cuts, fulls, peers, origs, lo, hi) && Legal(origs)
    requires ProcessesApart(origs)
    requires multiset(srtCut) == All(cuts) && multiset(srtFull) == All(fulls) && Nondecreasing(srtFull)
    requires coalesced <==> !Covered(srtCut, lo, hi)
    requires EndsSorted(srtFull) ==> (pairwise <==> !Covered(srtFull, lo, hi))
    ensures coalesced <==> pairwise
    ensures coalesced <==> exists x :: lo <= x < hi && !Requested(origs, x)
  {
    hide Covered, Requested, ListFor, ListsFor, Ordered, Positive, ProcessesApart, Variants, AllDone, Legal, All,
         EndsSorted, Nondecreasing;
    VariantFacts(cuts, fulls, peers, origs, lo, hi);
    MergedEndsSorted(srtFull, fulls);
    MergedCovers(srtCut, cuts, origs, lo, hi);
    MergedCovers(srtFull, fulls, origs, lo, hi);
  }
}
