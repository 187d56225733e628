/**
 Flattened MPI datatypes: blocks of (displacement, length), repeated every `extent`
 bytes, and the cursor that walks the data bytes in order (ADIOI_BUF_INCR,
 ADIOI_BUF_COPY).
 */
module FlatTypes {
  import opened Extents

  datatype FlatType = FlatType(indices: seq<int>, lens: seq<nat>, extent: int)

  /** The number of data bytes in the first `i` blocks. */
  function Pre(lens: seq<nat>, i: nat): nat
    requires i <= |lens|
  {
    if i == 0 then 0 else Pre(lens, i - 1) + lens[i - 1]
  }

  function Size(ft: FlatType): nat { Pre(ft.lens, |ft.lens|) }

  /** At least one block, at least one byte. */
  ghost predicate Proper(ft: FlatType) {
    |ft.indices| == |ft.lens| > 0 && Size(ft) > 0
  }

  lemma {:induction false} PreMonotone(lens: seq<nat>, i: nat, j: nat)
    requires i <= j <= |lens|
    ensures Pre(lens, i) <= Pre(lens, j)
    decreases j
  {
    if i == j {
    } else {
      PreMonotone(lens, i, j - 1);
    }
  }

  /** The displacement of byte `r` of the blocks from `i` on. */
  function Loc(ft: FlatType, i: nat, r: nat): int
    requires |ft.indices| == |ft.lens|
    decreases |ft.lens| - i
  {
    if i >= |ft.lens| then 0
    else if r < ft.lens[i] then ft.indices[i] + r
    else Loc(ft, i + 1, r - ft.lens[i])
  }

  /** Where data byte `k` of the repeated type lies. */
  function Addr(ft: FlatType, k: nat): int
    requires Proper(ft)
  {
    if k < Size(ft) then Loc(ft, 0, k) else ft.extent + Addr(ft, k - Size(ft))
  }

  lemma {:induction false} LocAt(ft: FlatType, i: nat, j: nat, w: nat, r: nat)
    requires |ft.indices| == |ft.lens| && i <= j < |ft.lens| && w < ft.lens[j]
    requires r == Pre(ft.lens, j) - Pre(ft.lens, i) + w
    ensures Loc(ft, i, r) == ft.indices[j] + w
    decreases j - i
  {
    PreMonotone(ft.lens, i, j);
    if i == j {
    } else {
      PreMonotone(ft.lens, i + 1, j);
      assert Pre(ft.lens, i + 1) == Pre(ft.lens, i) + ft.lens[i];
      LocAt(ft, i + 1, j, w, r - ft.lens[i]);
    }
  }

  /** Byte `w` of block `j` of repetition `n`. */
  lemma {:induction false} AddrAt(ft: FlatType, n: nat, j: nat, w: nat, k: nat)
    requires Proper(ft) && j < |ft.lens| && w < ft.lens[j]
    requires k == n * Size(ft) + Pre(ft.lens, j) + w
    ensures Addr(ft, k) == n * ft.extent + ft.indices[j] + w
    decreases n
  {
    PreMonotone(ft.lens, j + 1, |ft.lens|);
    assert Pre(ft.lens, j) + w < Size(ft);
    if n == 0 {
      LocAt(ft, 0, j, w, k);
    } else {
      assert n * Size(ft) == (n - 1) * Size(ft) + Size(ft);
      assert n * ft.extent == (n - 1) * ft.extent + ft.extent;
      AddrAt(ft, n - 1, j, w, k - Size(ft));
    }
  }

  lemma {:induction false} SomePositive(lens: seq<nat>, i: nat)
    requires i <= |lens| && Pre(lens, i) > 0
    ensures exists p :: 0 <= p < i && lens[p] > 0
  {
    if lens[i - 1] == 0 { SomePositive(lens, i - 1); }
  }

  /** Steps from block `i` to block `p`, going round. */
  function Distance(i: int, p: int, n: int): int {
    if i <= p then p - i else n - i + p
  }

  /** Distinct data bytes lie at distinct places. */
  ghost predicate Injective(ft: FlatType, limit: nat)
    requires Proper(ft)
  {
    forall j, k :: 0 <= j < k < limit ==> Addr(ft, j) != Addr(ft, k)
  }

  /** No data byte lies at `a`. */
  ghost predicate Outside(ft: FlatType, limit: nat, a: int)
    requires Proper(ft)
  {
    forall k :: 0 <= k < limit ==> Addr(ft, k) != a
  }

  ghost predicate Within(ft: FlatType, limit: nat, size: nat)
    requires Proper(ft)
  {
    forall k :: 0 <= k < limit ==> 0 <= Addr(ft, k) < size
  }

  /** From `was` to `now`, data bytes from..to - 1 were set to rb[at..], nothing else changed. */
  ghost predicate Written(was: seq<Byte>, now: seq<Byte>, rb: seq<Byte>, ft: FlatType, limit: nat, from: nat,
                          to: nat, at: nat)
    requires Proper(ft) && from <= to <= limit && at + (to - from) <= |rb| && |now| == |was| && Within(ft, limit, |was|)
  {
    && (forall k :: 0 <= k < limit ==>
          now[Addr(ft, k)] == if from <= k < to then rb[at + (k - from)] else was[Addr(ft, k)])
    && (forall a :: 0 <= a < |was| && Outside(ft, limit, a) ==> now[a] == was[a])
  }

  /** One contiguous copy to the places of data bytes from..to - 1. */
  lemma Unpacked(was: seq<Byte>, now: seq<Byte>, rb: seq<Byte>, ft: FlatType, limit: nat, from: nat, to: nat,
                 addr: int, at: nat)
    requires Proper(ft) && Injective(ft, limit) && from <= to <= limit && |now| == |was| && at + (to - from) <= |rb|
    requires Within(ft, limit, |was|)
    requires forall k :: from <= k < to ==> Addr(ft, k) == addr + (k - from)
    requires forall i :: 0 <= i < |was| ==>
               now[i] == if addr <= i < addr + (to - from) then rb[at + (i - addr)] else was[i]
    ensures Written(was, now, rb, ft, limit, from, to, at)
  {
    hide Addr, Proper;
    forall k | 0 <= k < limit
      ensures now[Addr(ft, k)] == if from <= k < to then rb[at + (k - from)] else was[Addr(ft, k)]
    {
      var i := Addr(ft, k);
      if addr <= i < addr + (to - from) {
        SamePlace(ft, limit, k, from + (i - addr));
      }
    }
    forall a | 0 <= a < |was| && Outside(ft, limit, a) ensures now[a] == was[a] {
      var k := from + (a - addr);
      assert from <= k < to ==> Addr(ft, k) == a;
    }
  }

  lemma SamePlace(ft: FlatType, limit: nat, j: nat, k: nat)
    requires Proper(ft) && Injective(ft, limit) && j < limit && k < limit && Addr(ft, j) == Addr(ft, k)
    ensures j == k
  {
  }

  lemma WrittenMore(was: seq<Byte>, mid: seq<Byte>, now: seq<Byte>, rb: seq<Byte>, ft: FlatType, limit: nat,
                    from: nat, via: nat, to: nat, at: nat, at': nat)
    requires Proper(ft) && from <= via <= to <= limit && at + (to - from) <= |rb| && |now| == |mid| == |was|
    requires Within(ft, limit, |was|) && at' == at + (via - from)
    requires Written(was, mid, rb, ft, limit, from, via, at) && Written(mid, now, rb, ft, limit, via, to, at')
    ensures Written(was, now, rb, ft, limit, from, to, at)
  {
    hide Addr, Proper, Outside;
  }

  /** Position in the user buffer: current address, block, bytes left in it, repetition. */
  class BufferCursor {
    const ft: FlatType
    var addr: int
    var idx: nat
    var left: nat
    var n: nat
    ghost var pos: nat

    ghost predicate Valid()
      reads this
    {
      && Proper(ft) && idx < |ft.lens| && left <= ft.lens[idx]
      && (left == 0 ==> ft.lens[idx] == 0)
      && pos == n * Size(ft) + Pre(ft.lens, idx) + (ft.lens[idx] - left)
      && addr == n * ft.extent + ft.indices[idx] + (ft.lens[idx] - left)
    }

    constructor (t: FlatType)
      requires Proper(t)
      ensures Valid() && pos == 0 && ft == t
    {
      ft := t;
      addr, idx, n, left := t.indices[0], 0, 0, t.lens[0];
      pos := 0;
    }

    /** The bytes left in the current block are the next data bytes. */
    lemma Ahead(k: nat)
      requires Valid() && pos <= k < pos + left
      ensures Proper(ft) && Addr(ft, k) == addr + (k - pos)
    {
      AddrAt(ft, n, idx, ft.lens[idx] - left + (k - pos), k);
    }

    /** Advance by `m` bytes of the current block, moving on when it is used up. */
    method Advance(m: nat)
      requires Valid() && m <= left
      modifies this
      ensures Valid() && pos == old(pos) + m
      ensures m == 0 && old(left) == 0 ==> idx == (if old(idx) + 1 < |ft.lens| then old(idx) + 1 else 0)
    {
      addr := addr + m;
      left := left - m;
      pos := pos + m;
      if left == 0 {
        if idx < |ft.lens| - 1 {
          idx := idx + 1;
        } else {
          idx := 0;
          n := n + 1;
          assert n * Size(ft) == old(n) * Size(ft) + Size(ft);
        }
        addr := ft.indices[idx] + n * ft.extent;
        left := ft.lens[idx];
      }
    }

    lemma Bounds()
      requires Valid()
      ensures idx < |ft.lens| && left <= ft.lens[idx] && (left == 0 ==> ft.lens[idx] == 0)
    {
    }

    /** A block with data, to measure progress over empty blocks. */
    lemma NonEmptyBlock() returns (p: nat)
      requires Valid()
      ensures p < |ft.lens| && ft.lens[p] > 0
    {
      SomePositive(ft.lens, |ft.lens|);
      p :| p < |ft.lens| && ft.lens[p] > 0;
    }

    /** ADIOI_BUF_INCR */
    method Incr(incr: nat)
      requires Valid()
      modifies this
      ensures Valid() && pos == old(pos) + incr
    {
      hide BufferCursor.Valid;
      ghost var p := NonEmptyBlock();
      var todo := incr;
      while todo > 0
        invariant Valid() && 0 <= todo <= incr && pos == old(pos) + (incr - todo)
        decreases todo, if left == 0 then Distance(idx, p, |ft.lens|) else 0
      {
        Bounds();
        var sizeInBuf := if todo <= left then todo else left;
        Advance(sizeInBuf);
        Bounds();
        todo := todo - sizeInBuf;
      }
    }

    /** The copy loop of ADIOI_BUF_COPY when packing: `size` bytes of the user buffer, in
        data order, to `sb` from `at` on. */
    method CopyOut(ub: array<Byte>, sb: array<Byte>, at: nat, size: nat)
      requires Valid() && at + size <= sb.Length && ub != sb
      requires forall k :: pos <= k < pos + size ==> 0 <= Addr(ft, k) < ub.Length
      modifies this, sb
      ensures Valid() && pos == old(pos) + size
      ensures forall i :: at <= i < at + size ==> sb[i] == ub[Addr(ft, old(pos) + (i - at))]
      ensures forall i :: 0 <= i < sb.Length && !(at <= i < at + size) ==> sb[i] == old(sb[i])
    {
      hide BufferCursor.Valid, Addr, Proper;
      ghost var p := NonEmptyBlock();
      ProperHere();
      var done := 0;
      while done < size
        invariant Valid() && 0 <= done <= size && pos == old(pos) + done && Proper(ft)
        invariant forall i :: at <= i < at + done ==> sb[i] == ub[Addr(ft, old(pos) + (i - at))]
        invariant forall i :: 0 <= i < sb.Length && !(at <= i < at + done) ==> sb[i] == old(sb[i])
        decreases size - done, if left == 0 then Distance(idx, p, |ft.lens|) else 0
      {
        Bounds();
        var sizeInBuf := if size - done <= left then size - done else left;
        forall k | pos <= k < pos + sizeInBuf ensures Addr(ft, k) == addr + (k - pos) { Ahead(k); }
        assert sizeInBuf > 0 ==> Addr(ft, pos) == addr && Addr(ft, pos + sizeInBuf - 1) == addr + (sizeInBuf - 1);
        Memcpy(sb, at + done, ub, addr, sizeInBuf);
        Advance(sizeInBuf);
        Bounds();
        done := done + sizeInBuf;
      }
    }

    /** The copy loop of ADIOI_BUF_COPY when unpacking: `size` bytes of `rb` from `at` on
        to the next places of the user buffer. */
    method CopyIn(ub: array<Byte>, rb: array<Byte>, at: nat, size: nat, ghost limit: nat)
      requires Valid() && at + size <= rb.Length && ub != rb && pos + size <= limit
      requires Within(ft, limit, ub.Length) && Injective(ft, limit)
      modifies this, ub
      ensures Valid() && pos == old(pos) + size
      ensures Written(old(ub[..]), ub[..], rb[..], ft, limit, old(pos), pos, at)
    {
      hide BufferCursor.Valid, Addr, Proper, Written, Injective, Within;
      ghost var p := NonEmptyBlock();
      ProperHere();
      ghost var was, from := ub[..], pos;
      WrittenNone(was, rb[..], ft, limit, from, at);
      var done := 0;
      while done < size
        invariant Valid() && 0 <= done <= size && pos == from + done
        invariant Written(was, ub[..], rb[..], ft, limit, from, pos, at)
        decreases size - done, if left == 0 then Distance(idx, p, |ft.lens|) else 0
      {
        Bounds();
        var sizeInBuf := if size - done <= left then size - done else left;
        forall k | pos <= k < pos + sizeInBuf ensures Addr(ft, k) == addr + (k - pos) { Ahead(k); }
        if sizeInBuf > 0 { InPlace(ft, limit, ub.Length, pos, pos + sizeInBuf - 1, addr); }
        ghost var mid, via := ub[..], pos;
        Memcpy(ub, addr, rb, at + done, sizeInBuf);
        Unpacked(mid, ub[..], rb[..], ft, limit, pos, pos + sizeInBuf, addr, at + done);
        Advance(sizeInBuf);
        Bounds();
        WrittenMore(was, mid, ub[..], rb[..], ft, limit, from, via, pos, at, at + done);
        done := done + sizeInBuf;
      }
    }

    static lemma InPlace(ft: FlatType, limit: nat, size: nat, k: nat, l: nat, addr: int)
      requires Proper(ft) && Within(ft, limit, size) && k <= l < limit && Addr(ft, k) == addr
      requires Addr(ft, l) == addr + (l - k)
      ensures 0 <= addr && addr + (l - k) < size
    {
    }

    static lemma WrittenNone(was: seq<Byte>, rb: seq<Byte>, ft: FlatType, limit: nat, from: nat, at: nat)
      requires Proper(ft) && from <= limit && at <= |rb| && Within(ft, limit, |was|)
      ensures Written(was, was, rb, ft, limit, from, from, at)
    {
    }

    lemma ProperHere()
      requires Valid()
      ensures Proper(ft)
    {
    }
  }

  method Memcpy(dst: array<Byte>, at: int, src: array<Byte>, from: int, len: nat)
    requires dst != src
    requires len > 0 ==> 0 <= at && at + len <= dst.Length && 0 <= from && from + len <= src.Length
    modifies dst
    ensures forall i :: 0 <= i < dst.Length ==>
              dst[i] == if at <= i < at + len then src[from + (i - at)] else old(dst[i])
  {
    for t := 0 to len
      invariant forall i :: 0 <= i < dst.Length ==>
                  dst[i] == if at <= i < at + t then src[from + (i - at)] else old(dst[i])
    {
      dst[at + t] := src[from + t];
    }
  }
}
