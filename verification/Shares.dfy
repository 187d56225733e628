/**
 The part of a process's byte stream that belongs to one file domain, in stream order.
 */
module Shares {
  import opened Extents
  import opened Domains

  /** The entries of `data` whose file offset is owned by domain `d`, in order. */
  function Share<T>(starts: seq<int>, d: int, offs: seq<int>, data: seq<T>): seq<T>
    requires |starts| > 0 && |offs| == |data|
  {
    if offs == [] then []
    else
      var n := |offs| - 1;
      Share(starts, d, offs[..n], data[..n]) + if Owner(starts, offs[n]) == d then [data[n]] else []
  }

  /** How many of the offsets domain `d` owns. */
  function Count(starts: seq<int>, d: int, offs: seq<int>): nat
    requires |starts| > 0
  {
    if offs == [] then 0
    else
      var n := |offs| - 1;
      Count(starts, d, offs[..n]) + if Owner(starts, offs[n]) == d then 1 else 0
  }

  lemma {:induction false} ShareLength<T>(starts: seq<int>, d: int, offs: seq<int>, data: seq<T>)
    requires |starts| > 0 && |offs| == |data|
    ensures |Share(starts, d, offs, data)| == Count(starts, d, offs)
  {
    if offs == [] {
    } else {
      ShareLength(starts, d, offs[..|offs| - 1], data[..|offs| - 1]);
    }
  }

  lemma {:induction false} ShareConcat<T>(starts: seq<int>, d: int, o1: seq<int>, d1: seq<T>, o2: seq<int>, d2: seq<T>)
    requires |starts| > 0 && |o1| == |d1| && |o2| == |d2|
    ensures Share(starts, d, o1 + o2, d1 + d2) == Share(starts, d, o1, d1) + Share(starts, d, o2, d2)
    decreases |o2|
  {
    if o2 == [] {
      assert o1 + o2 == o1 && d1 + d2 == d1;
    } else {
      var n := |o2| - 1;
      ShareConcat(starts, d, o1, d1, o2[..n], d2[..n]);
      assert (o1 + o2)[..|o1| + n] == o1 + o2[..n];
      assert (d1 + d2)[..|d1| + n] == d1 + d2[..n];
    }
  }

  lemma {:induction false} CountConcat(starts: seq<int>, d: int, o1: seq<int>, o2: seq<int>)
    requires |starts| > 0
    ensures Count(starts, d, o1 + o2) == Count(starts, d, o1) + Count(starts, d, o2)
    decreases |o2|
  {
    if o2 == [] {
      assert o1 + o2 == o1;
    } else {
      var n := |o2| - 1;
      CountConcat(starts, d, o1, o2[..n]);
      assert (o1 + o2)[..|o1| + n] == o1 + o2[..n];
    }
  }

  /** A run of bytes inside one domain belongs to that domain alone. */
  lemma {:induction false} ShareUniform<T>(starts: seq<int>, d: int, e: int, offs: seq<int>, data: seq<T>)
    requires |starts| > 0 && |offs| == |data|
    requires forall k :: 0 <= k < |offs| ==> Owner(starts, offs[k]) == e
    ensures Share(starts, d, offs, data) == if e == d then data else []
    ensures Count(starts, d, offs) == if e == d then |offs| else 0
  {
    if offs == [] {
    } else {
      var n := |offs| - 1;
      ShareUniform(starts, d, e, offs[..n], data[..n]);
      assert data == data[..n] + [data[n]];
    }
  }

  lemma CountPrefix(starts: seq<int>, d: int, offs: seq<int>, k: nat)
    requires |starts| > 0 && k < |offs|
    ensures Count(starts, d, offs[..k + 1]) ==
            Count(starts, d, offs[..k]) + if Owner(starts, offs[k]) == d then 1 else 0
  {
    assert offs[..k + 1][..k] == offs[..k];
  }

  lemma {:induction false} CountMonotone(starts: seq<int>, d: int, offs: seq<int>, i: nat, j: nat)
    requires |starts| > 0 && i <= j <= |offs|
    ensures Count(starts, d, offs[..i]) <= Count(starts, d, offs[..j])
    ensures i < j && Owner(starts, offs[i]) == d ==> Count(starts, d, offs[..i]) < Count(starts, d, offs[..j])
    decreases j - i
  {
    if i == j {
    } else {
      CountPrefix(starts, d, offs, i);
      CountMonotone(starts, d, offs, i + 1, j);
    }
  }

  /** Stream position k, if owned by d, is entry number Count(d, offs[..k]) of d's share. */
  lemma {:induction false} ShareIndex<T>(starts: seq<int>, d: int, offs: seq<int>, data: seq<T>, k: nat)
    requires |starts| > 0 && |offs| == |data| && k < |offs| && Owner(starts, offs[k]) == d
    ensures Count(starts, d, offs[..k]) < |Share(starts, d, offs, data)|
    ensures Share(starts, d, offs, data)[Count(starts, d, offs[..k])] == data[k]
  {
    var n := |offs| - 1;
    if k < n {
      ShareIndex(starts, d, offs[..n], data[..n], k);
      assert offs[..n][..k] == offs[..k];
    } else {
      ShareLength(starts, d, offs[..n], data[..n]);
    }
  }

  /** Every entry of the share comes from one stream position. */
  lemma {:induction false} ShareOrigin(starts: seq<int>, d: int, offs: seq<int>, s: nat) returns (k: nat)
    requires |starts| > 0 && s < Count(starts, d, offs)
    ensures k < |offs| && Owner(starts, offs[k]) == d && Count(starts, d, offs[..k]) == s
  {
    var n := |offs| - 1;
    if s < Count(starts, d, offs[..n]) {
      k := ShareOrigin(starts, d, offs[..n], s);
      assert offs[..n][..k] == offs[..k];
    } else {
      k := n;
    }
  }

  /** Writing only d's share has the full effect on the bytes of d. */
  lemma {:induction false} PutShare<T>(starts: seq<int>, d: int, offs: seq<int>, data: seq<T>, v: T, x: int)
    requires |starts| > 0 && |offs| == |data| && Owner(starts, x) == d
    ensures |Share(starts, d, offs, offs)| == |Share(starts, d, offs, data)|
    ensures Put(v, Share(starts, d, offs, offs), Share(starts, d, offs, data), x) == Put(v, offs, data, x)
  {
    ShareLength(starts, d, offs, offs);
    ShareLength(starts, d, offs, data);
    if offs == [] {
    } else {
      var n := |offs| - 1;
      PutShare(starts, d, offs[..n], data[..n], v, x);
      if Owner(starts, offs[n]) == d {
        PutConcat(v, Share(starts, d, offs[..n], offs[..n]), Share(starts, d, offs[..n], data[..n]),
                  [offs[n]], [data[n]], x);
      } else {
        assert Share(starts, d, offs, offs) == Share(starts, d, offs[..n], offs[..n]);
        assert Share(starts, d, offs, data) == Share(starts, d, offs[..n], data[..n]);
      }
    }
  }

  // ---------- When a share is one contiguous slice ----------

  /** The owners met along the stream never go back. */
  ghost predicate OwnersMonotone(starts: seq<int>, offs: seq<int>)
    requires |starts| > 0
  {
    forall i, j :: 0 <= i < j < |offs| ==> Owner(starts, offs[i]) <= Owner(starts, offs[j])
  }

  /** The stream position of d's first byte (the length of the stream if it has none). */
  function First(starts: seq<int>, d: int, offs: seq<int>): nat
    requires |starts| > 0
  {
    if offs == [] then 0
    else
      var n := |offs| - 1;
      if Count(starts, d, offs[..n]) > 0 then First(starts, d, offs[..n])
      else if Owner(starts, offs[n]) == d then n else n + 1
  }

  /** If owners never go back, domain d owns exactly a run of stream positions. */
  lemma {:induction false} MonotoneIsRun(starts: seq<int>, d: int, offs: seq<int>)
    requires |starts| > 0 && OwnersMonotone(starts, offs)
    ensures var b, c := First(starts, d, offs), Count(starts, d, offs);
      b + c <= |offs| && forall k :: 0 <= k < |offs| ==> (Owner(starts, offs[k]) == d <==> b <= k < b + c)
  {
    if offs == [] {
    } else {
      var n := |offs| - 1;
      var p := offs[..n];
      var b, c := First(starts, d, p), Count(starts, d, p);
      MonotoneIsRun(starts, d, p);
      forall k | 0 <= k < n ensures Owner(starts, offs[k]) == d <==> b <= k < b + c {
        assert p[k] == offs[k];
      }
      if Owner(starts, offs[n]) == d && c > 0 {
        forall k | b < k < n ensures Owner(starts, offs[k]) == d {
          assert Owner(starts, offs[b]) <= Owner(starts, offs[k]) <= Owner(starts, offs[n]);
        }
      }
    }
  }

  /** ... so each share is the slice that starts at its first byte. */
  lemma {:induction false} MonotoneIsSlice<T>(starts: seq<int>, d: int, offs: seq<int>, data: seq<T>)
    requires |starts| > 0 && |offs| == |data| && OwnersMonotone(starts, offs)
    ensures var b, c := First(starts, d, offs), Count(starts, d, offs);
      b + c <= |data| && Share(starts, d, offs, data) == data[b..b + c]
  {
    var b, c := First(starts, d, offs), Count(starts, d, offs);
    MonotoneIsRun(starts, d, offs);
    RunIsSlice(starts, d, offs, data, b, b + c);
  }

  lemma {:induction false} RunIsSlice<T>(starts: seq<int>, d: int, offs: seq<int>, data: seq<T>, l: nat, h: nat)
    requires |starts| > 0 && |offs| == |data| && l <= h <= |offs|
    requires forall k :: 0 <= k < |offs| ==> (Owner(starts, offs[k]) == d <==> l <= k < h)
    ensures Share(starts, d, offs, data) == data[l..h]
  {
    if offs == [] {
      assert data[l..h] == [];
    } else {
      var n := |offs| - 1;
      if h == |offs| && l < h {
        assert Owner(starts, offs[n]) == d;
        RunIsSlice(starts, d, offs[..n], data[..n], l, n);
        assert data[..n][l..n] + [data[n]] == data[l..h];
      } else {
        assert Owner(starts, offs[n]) != d;
        var l', h' := Min(l, n), Min(h, n);
        RunIsSlice(starts, d, offs[..n], data[..n], l', h');
        assert data[..n][l'..h'] == data[l..h];
      }
    }
  }

  /** The positions of a share, when they form a run, are all owned. */
  lemma RunOwned(starts: seq<int>, d: int, offs: seq<int>, b: int, j: int)
    requires |starts| > 0
    requires Share(starts, d, offs, Range(0, |offs|)) == Range(b, Count(starts, d, offs))
    requires b <= j < b + Count(starts, d, offs)
    ensures 0 <= j < |offs| && Owner(starts, offs[j]) == d
  {
    var m := ShareOrigin(starts, d, offs, j - b);
    ShareIndex(starts, d, offs, Range(0, |offs|), m);
  }

  /** If owners do go back, some share is not a slice: its positions have a gap. */
  lemma ReturnIsNotSlice(starts: seq<int>, offs: seq<int>, b: int, i: nat, j: nat, k: nat)
    requires |starts| > 0 && i < j < k < |offs|
    requires Owner(starts, offs[i]) == Owner(starts, offs[k]) != Owner(starts, offs[j])
    ensures var d := Owner(starts, offs[i]);
      Share(starts, d, offs, Range(0, |offs|)) != Range(b, Count(starts, d, offs))
  {
    var d, ps := Owner(starts, offs[i]), Range(0, |offs|);
    ShareLength(starts, d, offs, ps);
    ShareIndex(starts, d, offs, ps, i);
    ShareIndex(starts, d, offs, ps, k);
    if Share(starts, d, offs, ps) == Range(b, Count(starts, d, offs)) {
      RunOwned(starts, d, offs, b, j);
      assert false;
    }
  }
}
