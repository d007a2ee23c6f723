/** The op history of osal.c, as msg_op_history_save fills it: an overwriting ring of entries, and the
    snapshot that is taken of it for printing. */
module OpHistory {
  import opened Options
  import opened Words
  import opened Rings

  datatype Entry = Entry(op: nat, opId: nat, refCount: int, infoBit: nat, params: seq<nat>, ts: nat, usec: nat)

  const NO_ENTRY := Entry(0, 0, 0, 0, [], 0, 0)

  /** The ring holds the last saves, oldest first, and starts at slot 0 until it is full. */
  ghost predicate HoldsLast(entries: seq<Entry>, read: u32, write: u32, saved: seq<Entry>) {
    && ValidSize(|entries|)
    && Sub32(write, read) == Min(|saved|, |entries|)
    && (|saved| < |entries| ==> read == 0)
    && Window(entries, read, Min(|saved|, |entries|)) == saved[|saved| - Min(|saved|, |entries|)..]
  }

  lemma SlicesAppend(saved: seq<Entry>, e: Entry, kept: nat)
    requires kept <= |saved|
    ensures saved[|saved| - kept..] + [e] == (saved + [e])[|saved| - kept..]
  {}

  lemma StoredAt(entries: seq<Entry>, at: nat, e: Entry)
    requires at < |entries|
    ensures entries[at := e] == entries[..at] + [e] + entries[at + 1..]
  {}

  lemma StoreAppends(entries: seq<Entry>, read: u32, kept: nat, e: Entry)
    requires ValidSize(|entries|) && kept < |entries|
    ensures var at := Slot(Add32(read, kept), |entries|);
            Window(entries[at := e], read, kept + 1) == Window(entries, read, kept) + [e]
  {
    AddKeepsSlot(read, kept, |entries|);
    var at := Slot(Add32(read, kept), |entries|);
    StoredAt(entries, at, e);
    WindowWrite(entries, entries[at := e], read, kept, [e]);
  }

  /** One more save: the oldest entry goes if there is no room. */
  lemma SaveHolds(entries: seq<Entry>, read: u32, write: u32, saved: seq<Entry>, e: Entry)
    requires HoldsLast(entries, read, write, saved)
    ensures var read' := if Sub32(write, read) == |entries| then Add32(read, 1) else read;
            HoldsLast(entries[Slot(write, |entries|) := e], read', Add32(write, 1), saved + [e])
  {
    var m, n := |entries|, Sub32(write, read);
    var drop := if n == m then 1 else 0;
    var read', kept := Add32(read, drop), n - drop;
    ReadDrops(entries, read, write, drop);
    assert Add32(read', kept) == write;
    StoreAppends(entries, read', kept, e);
    SlicesAppend(saved, e, kept);
  }

  // ---- the snapshot

  // the slot of the i-th oldest entry
  function SlotOf(read: u32, i: nat, maxSize: nat): nat
    requires maxSize > 0
  {
    Slot(read + i, maxSize)
  }

  /** All slots that are in use have been copied. */
  ghost predicate Captured(copy: seq<Entry>, read: u32, n: nat, maxSize: nat)
    requires maxSize > 0
  {
    forall i: nat :: i < n ==> SlotOf(read, i, maxSize) < |copy|
  }

  /** What walking the copy item by item comes across; None stands for memory behind the copy. */
  function Walked(copy: seq<Entry>, read: u32, n: nat, maxSize: nat): (w: seq<Option<Entry>>)
    requires maxSize > 0
    ensures |w| == n
  {
    seq(n, i requires 0 <= i < n =>
      var slot := SlotOf(read, i, maxSize);
      if slot < |copy| then Some(copy[slot]) else None)
  }

  function Somes(s: seq<Entry>): seq<Option<Entry>> { seq(|s|, i requires 0 <= i < |s| => Some(s[i])) }

  /** `size` entries copied from slot 0 on; those past the ring come from whatever lies behind it. */
  ghost predicate CopyOf(copy: seq<Entry>, entries: seq<Entry>, size: nat) {
    |copy| == size && forall i :: 0 <= i < size && i < |entries| ==> copy[i] == entries[i]
  }

  /** Whatever size was measured: the copy captures all entries in use if and only if the size is at least
      their number, and then walking it lists the last saves, oldest first. */
  lemma SnapshotHolds(entries: seq<Entry>, read: u32, write: u32, saved: seq<Entry>, copy: seq<Entry>, size: nat)
    requires HoldsLast(entries, read, write, saved) && CopyOf(copy, entries, size)
    ensures var m, n := |entries|, Sub32(write, read);
            && (Captured(copy, read, n, m) <==> size >= n)
            && (size >= n ==> Walked(copy, read, n, m) == Somes(saved[|saved| - n..]))
            && (size < n ==> None in Walked(copy, read, n, m))
  {
    var m, n := |entries|, Sub32(write, read);
    if size < n {
      var last := if n < m then n - 1 else m - 1 - Slot(read, m);
      SlotAdvance(read, last, m);
      assert SlotOf(read, last, m) >= size;
      assert Walked(copy, read, n, m)[last] == None;
    } else {
      forall i: nat | i < n ensures SlotOf(read, i, m) < size {}
      assert Window(entries, read, n) == saved[|saved| - n..];
      assert Walked(copy, read, n, m) == Somes(saved[|saved| - n..]);
    }
  }

  /** struct osal_op_history; saved lists all entries ever saved. */
  class History {
    const queue: array<Entry>
    const ring: Ring
    var dumpQueue: Option<seq<Entry>>
    const dumpRing: Ring
    ghost var saved: seq<Entry>

    ghost predicate Valid()
      reads this, queue, ring
    {
      && ring.Valid() && ring.maxSize == queue.Length == dumpRing.maxSize && ring != dumpRing
      && HoldsLast(queue[..], ring.read, ring.write, saved)
    }

    /** osal_op_history_init, with memory for the entries. */
    constructor (size: u32)
      requires PassesMaskTest(size)
      ensures Valid() && fresh(queue) && fresh(ring) && fresh(dumpRing)
      ensures queue.Length == size && saved == [] && dumpQueue == None
    {
      queue := new Entry[size](_ => NO_ENTRY);
      ring := new Ring(size, 0, 0);
      dumpRing := new Ring(size, 0, 0);
      dumpQueue, saved := None, [];
    }

    /** The RING_OVERWRITE_FOR_EACH(1) loop of msg_op_history_save: where the entry is to go. The write
        index moves on before the entry is stored; both happen under the lock. */
    method Claim() returns (entry: Option<nat>)
      requires Valid()
      modifies ring
      ensures entry == Some(Slot(old(ring.write), queue.Length)) && ring.write == Add32(old(ring.write), 1)
      ensures ring.read == if old(ring.Size()) == queue.Length then Add32(old(ring.read), 1) else old(ring.read)
    {
      ghost var w0 := ring.write;
      entry := None;
      var seg := ring.OverwritePrepare(1);
      ghost var r1 := ring.read;
      seg := ring.SegmentPrepare(ring.write, seg.remain, seg);
      while seg.sz > 0
        invariant ring.read == r1 && seg.remain == 0
        invariant if seg.sz > 0 then seg.sz == 1 && seg.ringPt == Slot(w0, queue.Length) && ring.write == w0
                  else entry == Some(Slot(w0, queue.Length)) && ring.write == Add32(w0, 1)
        decreases seg.sz
      {
        entry := Some(seg.ringPt);
        ring.write := Add32(ring.write, seg.sz);
        seg := ring.SegmentPrepare(ring.write, seg.remain, seg);
      }
    }

    /** msg_op_history_save */
    method Save(e: Entry)
      requires Valid()
      modifies this`saved, queue, ring
      ensures Valid() && saved == old(saved) + [e]
    {
      ghost var entries := queue[..];
      SaveHolds(entries, ring.read, ring.write, saved, e);
      var entry := Claim();
      if entry.None? { return; }
      queue[entry.value] := e;
      saved := saved + [e];
      assert queue[..] == entries[entry.value := e];
    }

    /** osal_op_history_print up to line 1346, when no save is in progress. */
    method Measure() returns (size: u32)
      requires Valid()
      ensures size == Min(|saved|, queue.Length)
    {
      size := ring.Size();
    }

    /** osal_op_history_print from line 1348 on, under the lock, for whatever size was measured before;
        `beyond` is what lies in memory behind the queue. */
    method Snapshot(size: u32, beyond: seq<Entry>)
      requires Valid() && size <= queue.Length + |beyond|
      modifies this`dumpQueue, dumpRing
      ensures Valid()
      ensures old(dumpQueue).Some? ==> dumpQueue == old(dumpQueue) && unchanged(dumpRing)
      ensures old(dumpQueue).None? ==>
                && dumpRing.Valid() && dumpRing.Size() == ring.Size()
                && dumpQueue.Some? && |dumpQueue.value| == size
                && (Captured(dumpQueue.value, dumpRing.read, ring.Size(), queue.Length) <==> size >= ring.Size())
                && var w := Walked(dumpQueue.value, dumpRing.read, ring.Size(), queue.Length);
                   if size >= ring.Size() then w == Somes(saved[|saved| - ring.Size()..]) else None in w
    {
      if dumpQueue.Some? { return; }
      var memory := queue[..] + beyond;
      SnapshotHolds(queue[..], ring.read, ring.write, saved, memory[..size], size);
      dumpQueue := Some(memory[..size]);
      dumpRing.read, dumpRing.write := ring.read, ring.write;
    }

    /** osal_op_history_print_work: the items of the snapshot, in the order printed. */
    method PrintWork() returns (printed: seq<Option<Entry>>)
      requires dumpRing.Valid() && dumpQueue.Some?
      modifies this`dumpQueue, dumpRing
      ensures dumpQueue == None
      ensures printed == old(Walked(dumpQueue.value, dumpRing.read, dumpRing.Size(), dumpRing.maxSize))
    {
      var copy := dumpQueue.value;
      ghost var r0, n, m := dumpRing.read, dumpRing.Size(), dumpRing.maxSize;
      ghost var all := Walked(copy, r0, n, m);
      printed := [];
      var seg := dumpRing.ReadPrepare(dumpRing.Size());
      seg := dumpRing.SegmentPrepare(dumpRing.read, if seg.remain > 0 then 1 else 0, seg);
      while seg.sz > 0
        invariant ItemNext(seg, dumpRing.read, r0, |printed|, n, m)
        invariant printed == all[..|printed|]
        decreases seg.sz + seg.remain
      {
        ItemStep(seg, dumpRing.read, r0, |printed|, n, m);
        var item := if seg.ringPt < |copy| then Some(copy[seg.ringPt]) else None;
        assert item == all[|printed|];
        printed := printed + [item];
        dumpRing.read := Add32(dumpRing.read, seg.sz);
        seg := dumpRing.SegmentPrepare(dumpRing.read, if seg.remain > 0 then 1 else 0, seg);
      }
      dumpQueue := None;
    }
  }

  /** The segment prepared after k of n items: the next item, or nothing at the end. */
  ghost predicate ItemNext(seg: Segment, read: u32, r0: u32, k: nat, n: nat, maxSize: nat)
    requires maxSize > 0
  {
    && k + seg.sz + seg.remain == n <= maxSize < TWO32
    && read == Add32(r0, k)
    && (if k < n then seg.sz == 1 && seg.ringPt == SlotOf(r0, k, maxSize) else seg.sz == 0)
  }

  lemma ItemStep(seg: Segment, read: u32, r0: u32, k: nat, n: nat, m: u32)
    requires ValidSize(m) && ItemNext(seg, read, r0, k, n, m) && seg.sz > 0
    ensures var read' := Add32(read, seg.sz);
            ItemNext(NextSegment(read', if seg.remain > 0 then 1 else 0, seg, m), read', r0, k + 1, n, m)
  {
    assert Add32(Add32(r0, k), 1) == Add32(r0, k + 1);
    AddKeepsSlot(r0, k + 1, m);
  }

  /** The whole of osal_op_history_print followed by its work item, with no save meanwhile: what gets
      printed is the last saves, as many as the ring has room for, oldest first. */
  method Print(history: History) returns (printed: seq<Option<Entry>>)
    requires history.Valid() && history.dumpQueue.None?
    modifies history`dumpQueue, history.dumpRing
    ensures history.Valid()
    ensures printed == Somes(history.saved[|history.saved| - Min(|history.saved|, history.queue.Length)..])
  {
    var size := history.Measure();
    history.Snapshot(size, []);
    printed := history.PrintWork();
  }
}
