/** ring.c and ring.h: a power-of-two ring whose 32-bit read and write counters run free. */
module Rings {
  import opened Words

  /** struct ring_segment; ringPt is the offset of ring_pt from the ring's base. */
  datatype Segment = Segment(ringPt: nat, sz: u32, dataPos: u32, remain: u32)

  // what the three prepare functions leave in a cleared segment
  function Cleared(remain: u32): Segment { Segment(0, 0, 0, remain) }

  function ReadAmount(sz: u32, read: u32, write: u32): (r: u32)
    ensures r == sz || (r < sz && Add32(read, r) == write)
  {
    if sz > Sub32(write, read) then Sub32(write, read) else sz
  }

  function WriteAmount(sz: u32, read: u32, write: u32, maxSize: u32): (r: u32)
    ensures r <= sz
    ensures Sub32(write, read) <= maxSize ==> r == Min(sz, maxSize - Sub32(write, read))
  {
    var free := Sub32(maxSize, Sub32(write, read));
    if sz > free then free else sz
  }

  /** __ring_segment_prepare: the longest stretch from `from` that does not cross the end of the ring.
      Ring.SegmentPrepare computes it with the mask. */
  function NextSegment(from: u32, want: u32, seg: Segment, maxSize: u32): (s: Segment)
    requires maxSize > 0 && want <= seg.remain
    ensures s.ringPt + s.sz <= maxSize
    ensures s.sz + s.remain == seg.remain
    ensures s.sz == 0 <==> want == 0
  {
    var pos := Slot(from, maxSize);
    var sz := if want <= maxSize - pos then want else maxSize - pos;
    Segment(pos, sz, if seg.sz != 0 then Add32(seg.dataPos, seg.sz) else 0, seg.remain - sz)
  }

  /** The segments whose loop bodies run in a FOR_EACH loop that starts at `from`. */
  function Walk(from: u32, seg: Segment, maxSize: u32): seq<Segment>
    requires maxSize > 0
    decreases seg.remain
  {
    var next := NextSegment(from, seg.remain, seg, maxSize);
    if next.sz == 0 then [] else [next] + Walk(Add32(from, next.sz), next, maxSize)
  }

  /** The walk starts at the slot of `from`, stays in bounds and tiles the external buffer exactly. */
  ghost predicate Tiles(w: seq<Segment>, from: nat, amount: nat, maxSize: u32)
    requires maxSize > 0
  {
    && |w| <= 2
    && (forall k :: 0 <= k < |w| ==>
          && w[k].sz > 0
          && w[k].ringPt + w[k].sz <= maxSize
          && w[k].ringPt == Slot(from + w[k].dataPos, maxSize)
          && w[k].dataPos == (if k == 0 then 0 else w[k - 1].dataPos + w[k - 1].sz)
          && w[k].dataPos + w[k].sz + w[k].remain == amount)
    && (if w == [] then amount == 0 else w[|w| - 1].remain == 0)
  }

  lemma LastSegment(from: u32, seg: Segment, maxSize: u32)
    requires maxSize > 0 && Slot(from, maxSize) + seg.remain <= maxSize
    ensures Walk(from, seg, maxSize) ==
            if seg.remain == 0 then [] else [NextSegment(from, seg.remain, seg, maxSize)]
  {
    var next := NextSegment(from, seg.remain, seg, maxSize);
    if next.sz != 0 {
      assert Walk(Add32(from, next.sz), next, maxSize) == [];
    }
  }

  // the whole amount in one segment, or in two when the first ends where the ring does
  lemma WalkCases(from: u32, amount: u32, maxSize: u32)
    requires ValidSize(maxSize) && amount <= maxSize
    ensures var pos, w := Slot(from, maxSize), Walk(from, Cleared(amount), maxSize);
            if amount == 0 then w == []
            else if amount <= maxSize - pos then w == [Segment(pos, amount, 0, 0)]
            else w == [Segment(pos, maxSize - pos, 0, amount - (maxSize - pos)),
                       Segment(0, amount - (maxSize - pos), maxSize - pos, 0)]
  {
    var s0 := Cleared(amount);
    var s1 := NextSegment(from, amount, s0, maxSize);
    if s1.remain == 0 {
      LastSegment(from, s0, maxSize);
    } else {
      var from1 := Add32(from, s1.sz);
      assert Slot(from1, maxSize) == 0 by {
        AddKeepsSlot(from, s1.sz, maxSize);
        SlotAdvance(from, s1.sz, maxSize);
      }
      LastSegment(from1, s1, maxSize);
      assert Walk(from, s0, maxSize) == [s1, NextSegment(from1, s1.remain, s1, maxSize)];
    }
  }

  /** Segment walk: at most two non-empty segments, in bounds, tiling the prepared amount. */
  lemma WalkTiles(from: u32, amount: u32, maxSize: u32)
    requires ValidSize(maxSize) && amount <= maxSize
    ensures Tiles(Walk(from, Cleared(amount), maxSize), from, amount, maxSize)
  {
    WalkCases(from, amount, maxSize);
    var pos := Slot(from, maxSize);
    if amount > maxSize - pos {
      SlotAdvance(from, maxSize - pos, maxSize);
    }
  }

  /** The n elements a reader finds from index `from` on. */
  function Window<T>(b: seq<T>, from: nat, n: nat): (w: seq<T>)
    requires |b| > 0
    ensures |w| == n
  {
    seq(n, i requires 0 <= i < n => b[Slot(from + i, |b|)])
  }

  lemma WindowDrop<T>(b: seq<T>, from: nat, k: nat, n: nat)
    requires |b| > 0 && k <= n
    ensures Window(b, from, n)[k..] == Window(b, from + k, n - k)
  {
    forall i | 0 <= i < n - k
      ensures Window(b, from, n)[k..][i] == Window(b, from + k, n - k)[i]
    {
      assert from + (k + i) == from + k + i;
    }
  }

  /** Only the slot of the starting index matters. */
  lemma WindowSlot<T>(b: seq<T>, from: nat, to: nat, n: nat)
    requires |b| > 0 && Slot(from, |b|) == Slot(to, |b|)
    ensures Window(b, from, n) == Window(b, to, n)
  {
    var w, v := Window(b, from, n), Window(b, to, n);
    forall i | 0 <= i < n
      ensures w[i] == v[i]
    {
      SlotIdempotent(from, i, |b|);
      SlotIdempotent(to, i, |b|);
    }
  }

  lemma WindowContiguous<T>(b: seq<T>, from: nat, k: nat, n: nat)
    requires |b| > 0 && k <= n && Slot(from, |b|) + k <= |b|
    ensures Window(b, from, n)[..k] == b[Slot(from, |b|)..Slot(from, |b|) + k]
  {
    var at := Slot(from, |b|);
    var w, stretch := Window(b, from, n)[..k], b[at..at + k];
    forall i | 0 <= i < k
      ensures w[i] == stretch[i]
    {
      SlotAdvance(from, i, |b|);
    }
  }

  /** The window goes on with whatever lies in the slots behind it. */
  lemma WindowExtend<T>(b: seq<T>, from: nat, n: nat, k: nat)
    requires |b| > 0 && Slot(from + n, |b|) + k <= |b|
    ensures Window(b, from, n + k) == Window(b, from, n) + b[Slot(from + n, |b|)..Slot(from + n, |b|) + k]
  {
    var w, v := Window(b, from, n + k), Window(b, from, n) + b[Slot(from + n, |b|)..Slot(from + n, |b|) + k];
    forall i | 0 <= i < n + k
      ensures w[i] == v[i]
    {
      if i >= n {
        SlotAdvance(from + n, i - n, |b|);
        assert from + n + (i - n) == from + i;
      }
    }
  }

  /** Slots outside a window do not matter to it. */
  lemma WindowSame<T>(b: seq<T>, c: seq<T>, from: nat, n: nat)
    requires |b| == |c| > 0
    requires forall i :: from <= i < from + n ==> b[Slot(i, |b|)] == c[Slot(i, |b|)]
    ensures Window(c, from, n) == Window(b, from, n)
  {
    var w, v := Window(c, from, n), Window(b, from, n);
    forall i | 0 <= i < n
      ensures w[i] == v[i]
    {}
  }

  /** Filling free slots appends to the window and leaves what was in it. */
  lemma WindowWrite<T>(b: seq<T>, c: seq<T>, from: nat, used: nat, data: seq<T>)
    requires |b| > 0 && used + |data| <= |b|
    requires var pt := Slot(from + used, |b|);
             pt + |data| <= |b| && c == b[..pt] + data + b[pt + |data|..]
    ensures Window(c, from, used + |data|) == Window(b, from, used) + data
  {
    var pt := Slot(from + used, |b|);
    forall i | from <= i < from + used
      ensures b[Slot(i, |b|)] == c[Slot(i, |b|)]
    {
      var at := Slot(i, |b|);
      if pt <= at < pt + |data| {
        SlotAdvance(from + used, at - pt, |b|);
        SlotDistinct(i, from + used + (at - pt), |b|);
        assert false;
      }
    }
    WindowSame(b, c, from, used);
    WindowExtend(c, from, used, |data|);
    assert c[pt..pt + |data|] == data;
  }

  /** Advancing the read counter drops from the front of what the ring holds. */
  lemma ReadDrops<T>(b: seq<T>, read: u32, write: u32, k: nat)
    requires ValidSize(|b|) && k <= Sub32(write, read)
    ensures Sub32(write, Add32(read, k)) == Sub32(write, read) - k
    ensures Window(b, Add32(read, k), Sub32(write, read) - k) == Window(b, read, Sub32(write, read))[k..]
  {
    var n := Sub32(write, read);
    assert Window(b, read, n)[k..] == Window(b, read + k, n - k) by { WindowDrop(b, read, k, n); }
    assert Slot(read + k, |b|) == Slot(Add32(read, k), |b|) by { AddKeepsSlot(read, k, |b|); }
    assert Window(b, read + k, n - k) == Window(b, Add32(read, k), n - k) by {
      WindowSlot(b, read + k, Add32(read, k), n - k);
    }
  }

  /** A segment prepared at index `from` when `done` of `total` elements have been moved. */
  ghost predicate Prepared(seg: Segment, from: u32, done: nat, total: nat, maxSize: u32)
    requires maxSize > 0
  {
    && done + seg.sz + seg.remain == total <= maxSize
    && seg.ringPt == Slot(from, maxSize)
    && seg.ringPt + seg.sz <= maxSize
    && (seg.sz > 0 ==> seg.dataPos == done)
    && (seg.sz == 0 ==> seg.remain == 0)
  }

  /** struct ring, without its base pointer: the buffers it indexes belong to its users. */
  class Ring {
    var write: u32
    var read: u32
    const maxSize: u32

    ghost predicate Valid()
      reads this
    {
      ValidSize(maxSize) && Sub32(write, read) <= maxSize
    }

    /** ring_init. It warns, and goes on, if the size is no power of two or read exceeds write; the ring
        is valid exactly if the size is one and the indices are at most that far apart. */
    constructor (maxSize: u32, read: u32, write: u32)
      ensures this.maxSize == maxSize && this.read == read && this.write == write
      ensures Valid() <==> PassesMaskTest(maxSize) && Sub32(write, read) <= maxSize
    {
      MaskTestMeansPowerOfTwo(maxSize);
      if PowerOfTwo(maxSize) { LargestSize(maxSize); }
      this.maxSize, this.read, this.write := maxSize, read, write;
    }

    // RING_SIZE
    function Size(): u32
      reads this
    {
      Sub32(write, read)
    }

    predicate Empty()
      reads this
    {
      read == write
    }

    predicate Full()
      reads this
    {
      Size() == maxSize
    }

    // RING_WRITE_REMAIN_SIZE
    function WriteRemainSize(): u32
      reads this
    {
      Sub32(maxSize, Size())
    }

    ghost function Contents<T>(base: seq<T>): seq<T>
      requires Valid() && |base| == maxSize
      reads this
    {
      Window(base, read, Size())
    }

    method ReadPrepare(sz: u32) returns (seg: Segment)
      ensures seg == Cleared(ReadAmount(sz, read, write))
    {
      var wt, rd := write, read;
      var n := sz;
      if n > Sub32(wt, rd) { n := Sub32(wt, rd); }
      seg := Segment(0, 0, 0, n);
    }

    method WritePrepare(sz: u32) returns (seg: Segment)
      ensures seg == Cleared(WriteAmount(sz, read, write, maxSize))
    {
      var wt, rd := write, read;
      var n := sz;
      if n > Sub32(maxSize, Sub32(wt, rd)) { n := Sub32(maxSize, Sub32(wt, rd)); }
      seg := Segment(0, 0, 0, n);
    }

    /** ring_overwrite_prepare makes room by dropping just enough of the oldest entries. More than the
        ring can hold is prepared all the same; then the read index passes the write index. */
    method OverwritePrepare(sz: u32) returns (seg: Segment)
      requires Valid()
      modifies this`read
      ensures seg == Cleared(sz)
      ensures var free := maxSize - old(Size());
              read == if sz > free then Add32(old(read), sz - free) else old(read)
      ensures sz <= maxSize ==> Valid() && Size() == Min(old(Size()), maxSize - sz)
    {
      var wt, rd := write, read;
      if sz > Sub32(maxSize, Sub32(wt, rd)) {
        read := Add32(read, Sub32(sz, Sub32(maxSize, Sub32(wt, rd))));
      }
      seg := Segment(0, 0, 0, sz);
    }

    /** __ring_segment_prepare */
    method SegmentPrepare(from: u32, sz: u32, seg: Segment) returns (next: Segment)
      requires ValidSize(maxSize) && sz <= seg.remain <= maxSize
      ensures next == NextSegment(from, sz, seg, maxSize)
    {
      MaskIsSlot(from, maxSize);
      var ringPos := BitAnd(from, maxSize - 1);
      var dataPos := if seg.sz != 0 then Add32(seg.dataPos, seg.sz) else 0;
      var n := sz;
      if Add32(ringPos, sz) > maxSize { n := Sub32(maxSize, ringPos); }
      next := Segment(ringPos, n, dataPos, Sub32(seg.remain, n));
    }

    /** _ring_read_commit drops from the front of the contents. */
    method ReadCommit<T>(seg: Segment, ghost base: seq<T>)
      requires Valid() && seg.sz <= Size() && |base| == maxSize
      modifies this`read
      ensures Valid() && read == Add32(old(read), seg.sz)
      ensures Contents(base) == old(Contents(base))[seg.sz..]
    {
      ReadDrops(base, read, write, seg.sz);
      read := Add32(read, seg.sz);
    }

    /** _ring_write_commit appends what was stored at the segment's place. */
    method WriteCommit<T>(seg: Segment, ghost was: seq<T>, ghost base: seq<T>, ghost data: seq<T>)
      requires Valid() && |was| == maxSize && |data| == seg.sz && Size() + seg.sz <= maxSize
      requires seg.ringPt == Slot(write, maxSize) && seg.ringPt + seg.sz <= maxSize
      requires base == was[..seg.ringPt] + data + was[seg.ringPt + seg.sz..]
      modifies this`write
      ensures Valid() && write == Add32(old(write), seg.sz)
      ensures Contents(base) == old(Contents(was)) + data
    {
      AddKeepsSlot(read, Size(), maxSize);
      WindowWrite(was, base, read, Size(), data);
      write := Add32(write, seg.sz);
    }

    // the initialisations and increments of the FOR_EACH macros

    method ReadFirst(sz: u32) returns (seg: Segment)
      requires Valid()
      ensures Prepared(seg, read, 0, Min(sz, Size()), maxSize)
    {
      seg := ReadPrepare(sz);
      seg := SegmentPrepare(read, seg.remain, seg);
    }

    method ReadNext<T>(seg: Segment, ghost done: nat, ghost total: nat, ghost base: seq<T>) returns (next: Segment)
      requires Valid() && |base| == maxSize && seg.sz > 0 && seg.sz <= Size()
      requires Prepared(seg, read, done, total, maxSize)
      modifies this`read
      ensures Valid() && Prepared(next, read, done + seg.sz, total, maxSize)
      ensures Contents(base) == old(Contents(base))[seg.sz..]
    {
      ReadCommit(seg, base);
      next := SegmentPrepare(read, seg.remain, seg);
    }

    method WriteFirst(sz: u32) returns (seg: Segment)
      requires Valid()
      ensures Prepared(seg, write, 0, Min(sz, maxSize - Size()), maxSize)
    {
      seg := WritePrepare(sz);
      seg := SegmentPrepare(write, seg.remain, seg);
    }

    method WriteNext<T>(seg: Segment, ghost done: nat, ghost total: nat,
                        ghost was: seq<T>, ghost base: seq<T>, ghost data: seq<T>) returns (next: Segment)
      requires Valid() && |was| == maxSize && |data| == seg.sz > 0 && Size() + seg.sz <= maxSize
      requires Prepared(seg, write, done, total, maxSize)
      requires base == was[..seg.ringPt] + data + was[seg.ringPt + seg.sz..]
      modifies this`write
      ensures Valid() && Prepared(next, write, done + seg.sz, total, maxSize)
      ensures Contents(base) == old(Contents(was)) + data
    {
      WriteCommit(seg, was, base, data);
      next := SegmentPrepare(write, seg.remain, seg);
    }
  }
}
