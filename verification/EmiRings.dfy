/** ring_emi.c and ring_emi.h with ROUND_REPEAT: the firmware's ring, whose index words are kept
    masked to [0, max_size) and whose last free slot is never filled. */
module EmiRings {
  import opened Words
  import opened Rings

  // used bytes, when both index words are in range
  function EmiUsed(read: u32, write: u32, maxSize: u32): u32 {
    if write >= read then write - read else Sub32(maxSize, read - write)
  }

  // ring_emi_read_prepare
  function EmiReadAmount(sz: u32, read: u32, write: u32, maxSize: u32): (r: u32)
    ensures r == Min(sz, EmiUsed(read, write, maxSize))
  {
    if write >= read then (if sz > Sub32(write, read) then Sub32(write, read) else sz)
    else if sz > Sub32(maxSize, Sub32(read, write)) then Sub32(maxSize, Sub32(read, write)) else sz
  }

  /** _ring_emi_segment_prepare: `from` is used as an offset, unmasked. From an index word that equals
      the size nothing is prepared. */
  function EmiNextSegment(from: u32, seg: Segment, maxSize: u32): (s: Segment)
    requires from <= maxSize
    ensures s.ringPt + s.sz <= maxSize
    ensures s.sz + s.remain == seg.remain
    ensures s.sz == 0 <==> seg.remain == 0 || from == maxSize
  {
    var sz := if seg.remain <= maxSize - from then seg.remain else maxSize - from;
    Segment(from, sz, if seg.sz != 0 then Add32(seg.dataPos, seg.sz) else 0, seg.remain - sz)
  }

  /** The segments whose loop bodies run in a RING_EMI_READ_ALL_FOR_EACH loop that starts at `from`. */
  function EmiWalk(from: u32, seg: Segment, maxSize: u32): seq<Segment>
    requires 0 < maxSize && from <= maxSize
    decreases seg.remain
  {
    var next := EmiNextSegment(from, seg, maxSize);
    if next.sz == 0 then [] else [next] + EmiWalk(Slot(from + next.sz, maxSize), next, maxSize)
  }

  lemma LastEmiSegment(from: u32, seg: Segment, maxSize: u32)
    requires from < maxSize && from + seg.remain <= maxSize
    ensures EmiWalk(from, seg, maxSize) == if seg.remain == 0 then [] else [EmiNextSegment(from, seg, maxSize)]
  {
    var next := EmiNextSegment(from, seg, maxSize);
    if next.sz != 0 {
      assert EmiWalk(Slot(from + next.sz, maxSize), next, maxSize) == [];
    }
  }

  // the amount goes past the end of the ring
  lemma TwoEmiSegments(from: u32, amount: u32, maxSize: u32)
    requires ValidSize(maxSize) && from < maxSize && amount <= maxSize < from + amount
    ensures var s1 := EmiNextSegment(from, Cleared(amount), maxSize);
            EmiWalk(from, Cleared(amount), maxSize) == [s1, EmiNextSegment(0, s1, maxSize)]
  {
    var s1 := EmiNextSegment(from, Cleared(amount), maxSize);
    SlotAdvance(from, s1.sz, maxSize);
    LastEmiSegment(0, s1, maxSize);
  }

  /** Segment walk over the masked ring: at most two non-empty segments, in bounds, tiling the amount. */
  lemma EmiWalkTiles(from: u32, amount: u32, maxSize: u32)
    requires ValidSize(maxSize) && from < maxSize && amount <= maxSize
    ensures Tiles(EmiWalk(from, Cleared(amount), maxSize), from, amount, maxSize)
  {
    if from + amount <= maxSize {
      LastEmiSegment(from, Cleared(amount), maxSize);
    } else {
      TwoEmiSegments(from, amount, maxSize);
    }
  }

  lemma EmiReadSlot(read: u32, write: u32, k: u32, maxSize: u32)
    requires ValidSize(maxSize) && read < maxSize && write < maxSize && k <= EmiUsed(read, write, maxSize)
    ensures BitAnd(Add32(read, k), maxSize - 1) == Slot(read + k, maxSize)
    ensures EmiUsed(Slot(read + k, maxSize), write, maxSize) == EmiUsed(read, write, maxSize) - k
    ensures Slot(Slot(read + k, maxSize), maxSize) == Slot(read + k, maxSize)
  {
    MaskIsSlot(read + k, maxSize);
    SlotAdvance(read, k, maxSize);
  }

  /** Advancing the masked read index drops from the front of what the ring holds. */
  lemma EmiReadDrops<T>(b: seq<T>, read: u32, write: u32, k: u32)
    requires ValidSize(|b|) && read < |b| && write < |b| && k <= EmiUsed(read, write, |b|)
    ensures BitAnd(Add32(read, k), |b| - 1) == Slot(read + k, |b|)
    ensures EmiUsed(Slot(read + k, |b|), write, |b|) == EmiUsed(read, write, |b|) - k
    ensures Window(b, Slot(read + k, |b|), EmiUsed(read, write, |b|) - k) ==
            Window(b, read, EmiUsed(read, write, |b|))[k..]
  {
    EmiReadSlot(read, write, k, |b|);
    WindowDrop(b, read, k, EmiUsed(read, write, |b|));
    WindowSlot(b, read + k, Slot(read + k, |b|), EmiUsed(read, write, |b|) - k);
  }

  class EmiRing {
    const base: array<byte>
    const maxSize: u32
    var read: u32
    var write: u32

    ghost predicate Valid()
      reads this
    {
      ValidSize(maxSize) && base.Length == maxSize && read < maxSize && write < maxSize
    }

    // what the bounds check of connlog_ring_emi_to_cache rejects
    predicate OutOfBounds()
      reads this
    {
      read > maxSize || write > maxSize
    }

    /** ring_emi_init clears both index words; it warns, and goes on, if the size is no power of two. */
    constructor (base: array<byte>)
      requires base.Length < TWO32
      ensures this.base == base && this.maxSize == base.Length && read == write == 0
      ensures Valid() <==> PassesMaskTest(base.Length)
      ensures Valid() ==> Contents() == []
    {
      MaskTestMeansPowerOfTwo(base.Length);
      if PowerOfTwo(base.Length) { LargestSize(base.Length); }
      this.base, this.maxSize := base, base.Length;
      read, write := 0, 0;
    }

    function Used(): u32
      reads this
    {
      EmiUsed(read, write, maxSize)
    }

    ghost function Contents(): seq<byte>
      requires Valid()
      reads this, base
    {
      Window(base[..], read, Used())
    }

    method ReadPrepare(sz: u32) returns (seg: Segment)
      ensures seg == Cleared(EmiReadAmount(sz, read, write, maxSize))
    {
      var wt, rd := write, read;
      var n := sz;
      if wt >= rd {
        if n > Sub32(wt, rd) { n := Sub32(wt, rd); }
      } else {
        if n > Sub32(maxSize, Sub32(rd, wt)) { n := Sub32(maxSize, Sub32(rd, wt)); }
      }
      seg := Segment(0, 0, 0, n);
    }

    /** _ring_emi_segment_prepare */
    method SegmentPrepare(from: u32, seg: Segment) returns (next: Segment)
      requires ValidSize(maxSize) && from <= maxSize && seg.remain <= maxSize
      requires from < maxSize || seg.remain < maxSize
      ensures next == EmiNextSegment(from, seg, maxSize)
    {
      var dataPos := if seg.sz != 0 then Add32(seg.dataPos, seg.sz) else 0;
      var n := seg.remain;
      if Add32(from, seg.remain) > maxSize { n := Sub32(maxSize, from); }
      next := Segment(from, n, dataPos, Sub32(seg.remain, n));
    }

    /** _ring_emi_read_commit keeps the index masked and drops from the front of the contents. */
    method ReadCommit(seg: Segment)
      requires ValidSize(maxSize) && base.Length == maxSize && read < maxSize && seg.sz <= maxSize
      modifies this`read
      ensures read == Slot(old(read) + seg.sz, maxSize)
      ensures old(Valid()) && seg.sz <= old(Used()) ==>
                Valid() && Used() == old(Used()) - seg.sz && Contents() == old(Contents())[seg.sz..]
    {
      if Valid() && seg.sz <= Used() { EmiReadDrops(base[..], read, write, seg.sz); }
      MaskIsSlot(read + seg.sz, maxSize);
      read := BitAnd(Add32(read, seg.sz), maxSize - 1);
    }

    /** The increment of RING_EMI_READ_ALL_FOR_EACH; its initialisation only prepares a segment. */
    method ReadNext(seg: Segment, ghost done: nat, ghost total: nat) returns (next: Segment)
      requires ValidSize(maxSize) && base.Length == maxSize && read < maxSize
      requires seg.sz > 0 && Prepared(seg, read, done, total, maxSize)
      modifies this`read
      ensures read == Slot(old(read) + seg.sz, maxSize) && Prepared(next, read, done + seg.sz, total, maxSize)
    {
      ReadCommit(seg);
      next := SegmentPrepare(read, seg);
    }
  }
}
