/** connsys_debug_utility.c, one call at a time: the worker's move from the firmware's ring to the
    cache ring, and the reader's drain of the cache. LogInterleaving interleaves their steps. */
module LogPipeline {
  import opened Words
  import opened Rings
  import opened EmiRings

  method MemCopy(src: array<byte>, srcPos: nat, dst: array<byte>, dstPos: nat, n: nat)
    requires src != dst && srcPos + n <= src.Length && dstPos + n <= dst.Length
    modifies dst
    ensures dst[..] == old(dst[..dstPos]) + src[srcPos..srcPos + n] + old(dst[dstPos + n..])
  {
    forall i | 0 <= i < n {
      dst[dstPos + i] := src[srcPos + i];
    }
  }

  /** `now` is `before` followed by the first n elements of `source`. */
  ghost predicate AppendedUpTo(now: seq<byte>, before: seq<byte>, source: seq<byte>, n: nat) {
    n <= |source| && now == before + source[..n]
  }

  lemma AppendMore(was: seq<byte>, now: seq<byte>, before: seq<byte>, source: seq<byte>, n: nat, k: nat)
    requires AppendedUpTo(was, before, source, n) && n + k <= |source|
    requires now == was + source[n..n + k]
    ensures AppendedUpTo(now, before, source, n + k)
  {
    assert source[..n] + source[n..n + k] == source[..n + k];
  }

  lemma SliceOfSlice<T>(s: seq<T>, a: nat, n: nat, i: nat, k: nat)
    requires a + n <= |s| && i + k <= n
    ensures s[a + i..a + i + k] == s[a..a + n][i..i + k]
  {
    var t, u := s[a + i..a + i + k], s[a..a + n][i..i + k];
    assert forall j :: 0 <= j < k ==> t[j] == u[j];
  }

  /** struct connlog_buffer */
  class ConnlogBuffer {
    const emi: EmiRing
    const cache: Ring
    const cacheBase: array<byte>

    ghost predicate Valid()
      reads cache
    {
      && cache.Valid() && cacheBase.Length == cache.maxSize
      && ValidSize(emi.maxSize) && emi.base.Length == emi.maxSize
      && emi.base != cacheBase
    }

    ghost function Cached(): seq<byte>
      requires Valid()
      reads cache, cacheBase
    {
      cache.Contents(cacheBase[..])
    }

    /** connlog_buffer_init, for two separate stretches of memory. Sizes that are no powers of two draw
        warnings only. */
    constructor (emiBase: array<byte>, cacheBase: array<byte>)
      requires emiBase != cacheBase && emiBase.Length < TWO32 && cacheBase.Length < TWO32
      ensures fresh(emi) && fresh(cache) && emi.base == emiBase && this.cacheBase == cacheBase
      ensures Valid() <==> PassesMaskTest(emiBase.Length) && PassesMaskTest(cacheBase.Length)
      ensures Valid() ==> emi.Valid() && Cached() == [] && emi.Contents() == []
    {
      MaskTestMeansPowerOfTwo(emiBase.Length);
      emi := new EmiRing(emiBase);
      cache := new Ring(cacheBase.Length, 0, 0);
      this.cacheBase := cacheBase;
    }

    // ---- the write loop over the cache, run for one segment of the firmware's ring

    ghost predicate Filling(seg: Segment, written: nat, total: nat, before: seq<byte>, source: seq<byte>)
      reads cache, cacheBase
    {
      && Valid()
      && total <= |source| && |before| + total <= cache.maxSize
      && Prepared(seg, cache.write, written, total, cache.maxSize)
      && AppendedUpTo(Cached(), before, source, written)
    }

    /** The copy of one stretch, from index `from` of the firmware's ring on, and its commit. */
    method CopyStretch(from: nat, seg: Segment, ghost written: nat, ghost total: nat) returns (next: Segment)
      requires Valid() && seg.sz > 0 && from + seg.sz <= emi.base.Length
      requires Prepared(seg, cache.write, written, total, cache.maxSize) && cache.Size() + seg.sz <= cache.maxSize
      modifies cache`write, cacheBase
      ensures Valid() && Prepared(next, cache.write, written + seg.sz, total, cache.maxSize)
      ensures Cached() == old(Cached()) + emi.base[from..from + seg.sz]
    {
      ghost var bytes := cacheBase[..];
      MemCopy(emi.base, from, cacheBase, seg.ringPt, seg.sz);
      next := cache.WriteNext(seg, written, total, bytes, cacheBase[..], emi.base[from..from + seg.sz]);
    }

    /** One pass of RING_WRITE_FOR_EACH: copy, commit, prepare the next stretch. */
    method FillPass(emiSeg: Segment, seg: Segment, ghost written: nat, ghost total: nat, ghost before: seq<byte>)
      returns (next: Segment)
      requires emiSeg.ringPt + emiSeg.sz <= emi.base.Length
      requires Filling(seg, written, total, before, emi.base[emiSeg.ringPt..emiSeg.ringPt + emiSeg.sz])
      requires seg.sz > 0
      modifies cache`write, cacheBase
      ensures Filling(next, written + seg.sz, total, before, emi.base[emiSeg.ringPt..emiSeg.ringPt + emiSeg.sz])
    {
      ghost var source, was := emi.base[emiSeg.ringPt..emiSeg.ringPt + emiSeg.sz], Cached();
      assert cache.Size() == |before| + written;
      SliceOfSlice(emi.base[..], emiSeg.ringPt, emiSeg.sz, written, seg.sz);
      next := CopyStretch(emiSeg.ringPt + seg.dataPos, seg, written, total);
      AppendMore(was, Cached(), before, source, written, seg.sz);
    }

    /** RING_WRITE_FOR_EACH over one segment of the firmware's ring. */
    method WriteSegment(emiSeg: Segment)
      requires Valid() && emiSeg.ringPt + emiSeg.sz <= emi.maxSize
      modifies cache`write, cacheBase
      ensures Valid()
      ensures var moved := Min(emiSeg.sz, cache.maxSize - old(cache.Size()));
              AppendedUpTo(Cached(), old(Cached()), emi.base[emiSeg.ringPt..emiSeg.ringPt + emiSeg.sz], moved)
    {
      ghost var before := Cached();
      ghost var source := emi.base[emiSeg.ringPt..emiSeg.ringPt + emiSeg.sz];
      ghost var total, written := Min(emiSeg.sz, cache.maxSize - cache.Size()), 0;
      var seg := cache.WriteFirst(emiSeg.sz);
      while seg.sz > 0
        invariant Filling(seg, written, total, before, source)
        decreases total - written
      {
        ghost var sz := seg.sz;
        seg := FillPass(emiSeg, seg, written, total, before);
        written := written + sz;
      }
    }

    // ---- the read loop over the firmware's ring

    /** `moved` bytes of `queued`, which the firmware's ring holds from index `start` on, have been moved.
        The loop does not look at the firmware's write index. */
    ghost predicate Moving(seg: Segment, moved: nat, before: seq<byte>, queued: seq<byte>, start: u32)
      reads emi, emi.base, cache, cacheBase
    {
      && Valid() && |before| + |queued| <= cache.maxSize
      && Reading(seg, moved, queued, start)
      && AppendedUpTo(Cached(), before, queued, moved)
    }

    ghost predicate Reading(seg: Segment, moved: nat, queued: seq<byte>, start: u32)
      reads emi, emi.base
    {
      && ValidSize(emi.maxSize) && emi.base.Length == emi.maxSize
      && emi.read == Slot(start + moved, emi.maxSize)
      && Prepared(seg, emi.read, moved, |queued|, emi.maxSize)
      && queued == Window(emi.base[..], start, |queued|)
    }

    method NextStretch(seg: Segment, ghost moved: nat, ghost queued: seq<byte>, ghost start: u32)
      returns (next: Segment)
      requires Reading(seg, moved, queued, start) && seg.sz > 0
      modifies emi`read
      ensures Reading(next, moved + seg.sz, queued, start)
    {
      SlotIdempotent(start + moved, seg.sz, emi.maxSize);
      next := emi.ReadNext(seg, moved, |queued|);
    }

    lemma NextQueued(base: seq<byte>, start: nat, read: nat, queued: seq<byte>, moved: nat, sz: nat)
      requires |base| > 0 && queued == Window(base, start, |queued|) && moved + sz <= |queued|
      requires read == Slot(start + moved, |base|) && read + sz <= |base|
      ensures base[read..read + sz] == queued[moved..moved + sz]
    {
      WindowDrop(base, start, moved, |queued|);
      WindowContiguous(base, start + moved, sz, |queued| - moved);
      assert queued[moved..][..sz] == queued[moved..moved + sz];
    }

    /** One pass of RING_EMI_READ_ALL_FOR_EACH: the nested write loop, commit, prepare. */
    method MovePass(seg: Segment, ghost moved: nat, ghost before: seq<byte>, ghost queued: seq<byte>, ghost start: u32)
      returns (next: Segment)
      requires Moving(seg, moved, before, queued, start) && seg.sz > 0
      modifies cache`write, cacheBase, emi`read
      ensures Moving(next, moved + seg.sz, before, queued, start)
    {
      ghost var was := Cached();
      assert emi.base[seg.ringPt..seg.ringPt + seg.sz] == queued[moved..moved + seg.sz] by {
        NextQueued(emi.base[..], start, emi.read, queued, moved, seg.sz);
      }
      WriteSegment(seg);
      assert AppendedUpTo(Cached(), before, queued, moved + seg.sz) by {
        AppendMore(was, Cached(), before, queued, moved, seg.sz);
      }
      next := NextStretch(seg, moved, queued, start);
    }

    /** RING_EMI_READ_ALL_FOR_EACH moves what the earlier prepare fixed, whatever size it is given. */
    method MoveAll(prepared: Segment)
      requires Valid() && emi.read < emi.maxSize && prepared == Cleared(prepared.remain)
      requires prepared.remain <= emi.maxSize && prepared.remain <= cache.maxSize - cache.Size()
      modifies cache`write, cacheBase, emi`read
      ensures Valid() && emi.read == Slot(old(emi.read) + prepared.remain, emi.maxSize)
      ensures Cached() == old(Cached()) + Window(emi.base[..], old(emi.read), prepared.remain)
    {
      ghost var before, start := Cached(), emi.read;
      ghost var queued, moved := Window(emi.base[..], start, prepared.remain), 0;
      var seg := emi.SegmentPrepare(emi.read, prepared);
      while seg.sz > 0
        invariant Moving(seg, moved, before, queued, start)
        decreases |queued| - moved
      {
        ghost var sz := seg.sz;
        seg := MovePass(seg, moved, before, queued, start);
        moved := moved + sz;
      }
    }

    /** connlog_ring_emi_to_cache: moves min(EMI used, cache free) bytes, oldest first. `asserted` is the
        chip assert raised for index words beyond the ring, when nothing moves. Words equal to the size
        pass that test: from such a read index nothing moves either, and with such a write index the
        bytes up to the end of the ring count as used. */
    method RingEmiToCache() returns (asserted: bool)
      requires Valid()
      modifies cache`write, cacheBase, emi`read
      ensures Valid() && (emi.OutOfBounds() <==> old(emi.OutOfBounds()))
      ensures asserted <==>
                (emi.OutOfBounds() && !old(cache.Full()) && old(emi.read) != emi.write &&
                 EmiReadAmount(old(cache.WriteRemainSize()), old(emi.read), emi.write, emi.maxSize) > 0)
      ensures old(emi.read) >= emi.maxSize || emi.OutOfBounds() ==>
                Cached() == old(Cached()) && emi.read == old(emi.read)
      ensures old(emi.read) < emi.maxSize && !emi.OutOfBounds() ==>
                var moved := Min(old(emi.Used()), cache.maxSize - old(|Cached()|));
                && Cached() == old(Cached()) + old(Window(emi.base[..], emi.read, moved))
                && emi.read == Slot(old(emi.read) + moved, emi.maxSize)
      ensures old(emi.Valid()) ==>
                && emi.Valid()
                && var moved := Min(old(|emi.Contents()|), cache.maxSize - old(|Cached()|));
                && Cached() == old(Cached()) + old(emi.Contents())[..moved]
                && emi.Contents() == old(emi.Contents())[moved..]
    {
      asserted := false;
      var cacheMaxSize := cache.WriteRemainSize();
      ghost var moved := EmiReadAmount(cacheMaxSize, emi.read, emi.write, emi.maxSize);
      EmiDrops(moved);
      if cache.Full() { return; }
      if emi.read == emi.write { return; }
      var seg := emi.ReadPrepare(cacheMaxSize);
      if seg.remain == 0 { return; }
      if emi.read > emi.maxSize || emi.write > emi.maxSize {
        asserted := true;
        return;
      }
      if emi.read == emi.maxSize {
        seg := emi.SegmentPrepare(emi.read, seg);   // the loop does not start
        return;
      }
      MoveAll(seg);
    }

    // what moving from a firmware ring with masked indices amounts to
    lemma EmiDrops(moved: u32)
      requires Valid()
      requires emi.Valid() ==> moved <= emi.Used()
      ensures emi.Valid() ==>
                && Window(emi.base[..], emi.read, moved) == emi.Contents()[..moved]
                && var read := Slot(emi.read + moved, emi.maxSize);
                   Window(emi.base[..], read, EmiUsed(read, emi.write, emi.maxSize)) == emi.Contents()[moved..]
    {
      if emi.Valid() { EmiReadDrops(emi.base[..], emi.read, emi.write, moved); }
    }

    // ---- the read loop over the cache

    /** The first n bytes of `source` have replaced the first n bytes of `rest`. */
    ghost predicate CopiedUpTo(now: seq<byte>, source: seq<byte>, rest: seq<byte>, n: nat) {
      n <= |source| && n <= |rest| && now == source[..n] + rest[n..]
    }

    lemma CopyMore(was: seq<byte>, now: seq<byte>, source: seq<byte>, rest: seq<byte>, n: nat, k: nat)
      requires CopiedUpTo(was, source, rest, n) && n + k <= |source| && n + k <= |rest|
      requires now == was[..n] + source[n..n + k] + was[n + k..]
      ensures CopiedUpTo(now, source, rest, n + k)
    {
      assert was[..n] == source[..n] && was[n + k..] == rest[n + k..];
      assert source[..n] + source[n..n + k] == source[..n + k];
    }

    ghost predicate Draining(buf: array<byte>, seg: Segment, written: nat, total: nat,
                             before: seq<byte>, rest: seq<byte>)
      reads cache, cacheBase, buf
    {
      && Valid()
      && total <= |before| && total <= buf.Length
      && Prepared(seg, cache.read, written, total, cache.maxSize)
      && Cached() == before[written..]
      && CopiedUpTo(buf[..], before, rest, written)
    }

    method CopyOut(buf: array<byte>, seg: Segment, written: nat, ghost before: seq<byte>, ghost rest: seq<byte>)
      requires buf != cacheBase && seg.ringPt + seg.sz <= cacheBase.Length && written + seg.sz <= |before|
      requires cacheBase[seg.ringPt..seg.ringPt + seg.sz] == before[written..written + seg.sz]
      requires CopiedUpTo(buf[..], before, rest, written) && written + seg.sz <= |rest|
      modifies buf
      ensures CopiedUpTo(buf[..], before, rest, written + seg.sz)
    {
      ghost var was := buf[..];
      MemCopy(cacheBase, seg.ringPt, buf, written, seg.sz);
      CopyMore(was, buf[..], before, rest, written, seg.sz);
    }

    lemma NextCached(base: seq<byte>, read: nat, pt: nat, before: seq<byte>, written: nat, sz: nat)
      requires |base| > 0 && written + sz <= |before| && pt == Slot(read, |base|) && pt + sz <= |base|
      requires Window(base, read, |before| - written) == before[written..]
      ensures base[pt..pt + sz] == before[written..written + sz]
    {
      WindowContiguous(base, read, sz, |before| - written);
      assert before[written..][..sz] == before[written..written + sz];
    }

    /** One pass of RING_READ_FOR_EACH: copy, commit, prepare the next stretch. */
    method DrainPass(buf: array<byte>, seg: Segment, written: nat,
                     ghost total: nat, ghost before: seq<byte>, ghost rest: seq<byte>)
      returns (next: Segment)
      requires buf != cacheBase && Draining(buf, seg, written, total, before, rest) && seg.sz > 0
      modifies cache`read, buf
      ensures Draining(buf, next, written + seg.sz, total, before, rest)
    {
      NextCached(cacheBase[..], cache.read, seg.ringPt, before, written, seg.sz);
      CopyOut(buf, seg, written, before, rest);
      next := cache.ReadNext(seg, written, total, cacheBase[..]);
    }

    /** RING_READ_FOR_EACH */
    method DrainAll(buf: array<byte>, size: u32) returns (written: u32)
      requires Valid() && buf != cacheBase && size <= cache.Size() && size <= buf.Length
      modifies cache`read, buf
      ensures Valid() && written == size
      ensures CopiedUpTo(buf[..], old(Cached()), old(buf[..]), size)
      ensures Cached() == old(Cached())[size..]
    {
      ghost var before, rest := Cached(), buf[..];
      written := 0;
      var seg := cache.ReadFirst(size);
      while seg.sz > 0
        invariant Draining(buf, seg, written, size, before, rest)
        decreases size - written
      {
        var sz := seg.sz;
        seg := DrainPass(buf, seg, written, size, before, rest);
        written := Add32(written, sz);
      }
    }

    /** connsys_log_read in LOG_TO_FILE mode: the oldest min(count, cached) bytes, in order. */
    method ConnsysLogRead(buf: array<byte>, count: nat) returns (written: u32)
      requires Valid() && buf != cacheBase && count <= buf.Length
      modifies cache`read, buf
      ensures Valid()
      ensures written == Min(count, old(|Cached()|))
      ensures CopiedUpTo(buf[..], old(Cached()), old(buf[..]), written)
      ensures Cached() == old(Cached())[written..]
    {
      written := 0;
      var size := if count < cache.Size() then count else cache.Size();
      if cache.Empty() { return; }
      var seg := cache.ReadPrepare(size);
      if seg.remain == 0 { return; }
      written := DrainAll(buf, size);
    }
  }
}
