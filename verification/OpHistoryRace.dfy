/** The op history when saves and a print overlap. The size of the snapshot is computed from the two ring
    indices before the lock is taken, while a save that holds the lock moves them one after the other. */
module OpHistoryRace {
  import opened Options
  import opened Words
  import opened Rings
  import opened OpHistory

  /** Where the thread that holds the lock for msg_op_history_save stands. */
  datatype Saver =
    | Out
    | Locked(e: Entry)                                // about to make room
    | Dropped(e: Entry, read0: u32)                   // ring_overwrite_prepare has moved the read index
    | Committed(e: Entry, read0: u32, write0: u32)    // _ring_write_commit has moved the write index

  /** Where osal_op_history_print stands. RING_SIZE reads the two indices in either order. */
  datatype Printer =
    | Quiet
    | Measuring(write: Option<u32>, read: Option<u32>)

  /** What was copied under the lock: the measured number of entries, and the ring. */
  datatype Snapshot = Snapshot(size: u32, copy: seq<Entry>, read: u32, n: u32)

  datatype State = State(
    entries: seq<Entry>, read: u32, write: u32,
    saver: Saver, printer: Printer, taken: Option<Snapshot>,
    saved: seq<Entry>,     // history: all entries saved
    overlapped: bool)      // history: a save was in progress at some time since the print began

  datatype Step =
    | SaveLock(e: Entry)
    | SaveDrop
    | SaveCommit
    | SaveStore
    | PrintStart
    | PrintReadWrite
    | PrintReadRead
    | PrintSnapshot(beyond: seq<Entry>)   // what lies in memory behind the queue

  predicate Sized(s: State) { |s.entries| > 0 }

  function Size(s: State): u32 { Sub32(s.write, s.read) }

  /** Steps that are not enabled leave the state as it is. */
  function Apply(s: State, step: Step): State
    requires Sized(s)
  {
    match (s.saver, s.printer, step)
    case (Out, _, SaveLock(e)) => s.(saver := Locked(e), overlapped := true)
    case (Locked(e), _, SaveDrop) =>
      s.(read := if Size(s) == |s.entries| then Add32(s.read, 1) else s.read, saver := Dropped(e, s.read))
    case (Dropped(e, read0), _, SaveCommit) =>
      s.(write := Add32(s.write, 1), saver := Committed(e, read0, s.write))
    case (Committed(e, _, write0), _, SaveStore) =>
      s.(entries := s.entries[Slot(write0, |s.entries|) := e], saver := Out, saved := s.saved + [e])
    case (_, Quiet, PrintStart) => s.(printer := Measuring(None, None), overlapped := s.saver != Out)
    case (_, Measuring(None, r), PrintReadWrite) => s.(printer := Measuring(Some(s.write), r))
    case (_, Measuring(w, None), PrintReadRead) => s.(printer := Measuring(w, Some(s.read)))
    case (Out, Measuring(Some(w), Some(r)), PrintSnapshot(beyond)) =>
      var size, memory := Sub32(w, r), s.entries + beyond;
      if size > |memory| then s
      else s.(printer := Quiet, taken := Some(Snapshot(size, memory[..size], s.read, Size(s))))
    case _ => s
  }

  ghost predicate RingInv(s: State) {
    match s.saver
    case Out => HoldsLast(s.entries, s.read, s.write, s.saved)
    case Locked(_) => HoldsLast(s.entries, s.read, s.write, s.saved)
    case Dropped(_, read0) =>
      && HoldsLast(s.entries, read0, s.write, s.saved)
      && s.read == if Sub32(s.write, read0) == |s.entries| then Add32(read0, 1) else read0
    case Committed(_, read0, write0) =>
      && HoldsLast(s.entries, read0, write0, s.saved)
      && s.read == (if Sub32(write0, read0) == |s.entries| then Add32(read0, 1) else read0)
      && s.write == Add32(write0, 1)
  }

  /** While no save has overlapped, what the print has read is still so. */
  predicate PrintInv(s: State) {
    s.printer.Measuring? && !s.overlapped ==>
      && s.saver == Out
      && (s.printer.write.Some? ==> s.printer.write.value == s.write)
      && (s.printer.read.Some? ==> s.printer.read.value == s.read)
  }

  ghost predicate Inv(s: State) { Sized(s) && RingInv(s) && PrintInv(s) }

  lemma StoreKept(s: State)
    requires Sized(s) && RingInv(s) && s.saver.Committed?
    ensures Sized(Apply(s, SaveStore)) && RingInv(Apply(s, SaveStore))
  {
    SaveHolds(s.entries, s.saver.read0, s.saver.write0, s.saved, s.saver.e);
  }

  lemma DropKept(s: State)
    requires Sized(s) && RingInv(s) && s.saver.Locked?
    ensures Sized(Apply(s, SaveDrop)) && RingInv(Apply(s, SaveDrop))
  {
    var read := if Size(s) == |s.entries| then Add32(s.read, 1) else s.read;
    assert Apply(s, SaveDrop) == s.(read := read, saver := Dropped(s.saver.e, s.read));
  }

  lemma CommitKept(s: State)
    requires Sized(s) && RingInv(s) && s.saver.Dropped?
    ensures Sized(Apply(s, SaveCommit)) && RingInv(Apply(s, SaveCommit))
  {
    var saver := Committed(s.saver.e, s.saver.read0, s.write);
    assert Apply(s, SaveCommit) == s.(write := Add32(s.write, 1), saver := saver);
  }

  lemma LockKept(s: State, e: Entry)
    requires Sized(s) && RingInv(s)
    ensures Sized(Apply(s, SaveLock(e))) && RingInv(Apply(s, SaveLock(e)))
  {
    assert Apply(s, SaveLock(e)) == if s.saver == Out then s.(saver := Locked(e), overlapped := true) else s;
  }

  predicate Prints(step: Step) {
    step.PrintStart? || step.PrintReadWrite? || step.PrintReadRead? || step.PrintSnapshot?
  }

  lemma PrinterOnly(s: State, step: Step)
    requires Sized(s) && Prints(step)
    ensures var s' := Apply(s, step);
            s' == s.(printer := s'.printer, overlapped := s'.overlapped, taken := s'.taken)
  {}

  lemma RingKept(s: State, step: Step)
    requires Sized(s) && RingInv(s)
    ensures Sized(Apply(s, step)) && RingInv(Apply(s, step))
  {
    if step.SaveLock? { LockKept(s, step.e); }
    else if step.SaveDrop? { if s.saver.Locked? { DropKept(s); } }
    else if step.SaveCommit? { if s.saver.Dropped? { CommitKept(s); } }
    else if step.SaveStore? { if s.saver.Committed? { StoreKept(s); } }
    else { PrinterOnly(s, step); }
  }

  lemma PrintKept(s: State, step: Step)
    requires Sized(s) && PrintInv(s)
    ensures PrintInv(Apply(s, step)) && |Apply(s, step).entries| == |s.entries|
  {}

  lemma StepKeepsInv(s: State, step: Step)
    requires Inv(s)
    ensures Inv(Apply(s, step)) && |Apply(s, step).entries| == |s.entries|
  {
    RingKept(s, step);
    PrintKept(s, step);
  }

  function Init(entries: seq<Entry>): State { State(entries, 0, 0, Out, Quiet, None, [], false) }

  lemma InitInv(entries: seq<Entry>)
    requires ValidSize(|entries|)
    ensures Inv(Init(entries))
  {}

  /** More steps. */
  ghost function After(s: State, steps: seq<Step>): (s': State)
    requires Inv(s)
    ensures Inv(s') && |s'.entries| == |s.entries|
    decreases |steps|
  {
    if steps == [] then s
    else
      StepKeepsInv(s, steps[0]);
      After(Apply(s, steps[0]), steps[1..])
  }

  // ---- what a snapshot is worth

  /** The snapshot holds all entries that were in use when it was taken. */
  ghost predicate Complete(snap: Snapshot, maxSize: nat)
    requires maxSize > 0
  {
    Captured(snap.copy, snap.read, snap.n, maxSize)
  }

  /** In every state, a snapshot is complete if and only if the measured size is at least the number of
      entries in use; then the printer lists the last saves, oldest first, and otherwise it runs off the
      copy. A size beyond the ring's makes the copying itself run off the queue. */
  lemma SnapshotWorth(s: State, beyond: seq<Entry>)
    requires Inv(s) && s.saver == Out && s.printer.Measuring?
    requires s.printer.write.Some? && s.printer.read.Some?
    requires Sub32(s.printer.write.value, s.printer.read.value) <= |s.entries| + |beyond|
    ensures var s', size := Apply(s, PrintSnapshot(beyond)), Sub32(s.printer.write.value, s.printer.read.value);
            && s'.taken.Some? && s'.taken.value.size == |s'.taken.value.copy| == size && s'.taken.value.n == Size(s)
            && (Complete(s'.taken.value, |s.entries|) <==> size >= Size(s))
            && (size <= |s.entries| ==> s'.taken.value.copy == s.entries[..size])
            && (size > |s.entries| ==> s'.taken.value.copy == s.entries + beyond[..size - |s.entries|])
            && var w := Walked(s'.taken.value.copy, s.read, Size(s), |s.entries|);
               if size >= Size(s) then w == Somes(s.saved[|s.saved| - Size(s)..]) else None in w
  {
    var size := Sub32(s.printer.write.value, s.printer.read.value);
    SnapshotHolds(s.entries, s.read, s.write, s.saved, (s.entries + beyond)[..size], size);
  }

  /** If no save overlaps the print, from the reading of the size to the lock, the size is right. */
  lemma UndisturbedIsComplete(s: State, beyond: seq<Entry>)
    requires Inv(s) && s.saver == Out && s.printer.Measuring? && !s.overlapped
    requires s.printer.write.Some? && s.printer.read.Some?
    ensures var s' := Apply(s, PrintSnapshot(beyond));
            && s'.taken.Some? && s'.taken.value.size == Size(s) <= |s.entries|
            && Complete(s'.taken.value, |s.entries|)
            && Walked(s'.taken.value.copy, s.read, Size(s), |s.entries|) == Somes(s.saved[|s.saved| - Size(s)..])
  {
    SnapshotWorth(s, beyond);
  }

  // ---- runs in which a save overlaps

  ghost predicate Reaches(s: State, s': State)
    requires Inv(s)
  {
    exists steps :: After(s, steps) == s'
  }

  lemma {:induction false} AfterOneMore(s: State, steps: seq<Step>, step: Step)
    requires Inv(s)
    ensures After(s, steps + [step]) == Apply(After(s, steps), step)
    decreases |steps|
  {
    StepKeepsInv(s, (steps + [step])[0]);
    if steps == [] {
      assert (steps + [step])[1..] == [];
    } else {
      AfterOneMore(Apply(s, steps[0]), steps[1..], step);
      assert (steps + [step])[1..] == steps[1..] + [step];
    }
  }

  lemma ReachStep(s: State, m: State, step: Step)
    requires Inv(s) && Reaches(s, m)
    ensures Inv(m) && Reaches(s, Apply(m, step))
  {
    var steps :| After(s, steps) == m;
    AfterOneMore(s, steps, step);
  }

  lemma ReachItself(s: State)
    requires Inv(s)
    ensures Reaches(s, s)
  {
    assert After(s, []) == s;
  }

  ghost predicate Resting(s: State) { Inv(s) && s.saver == Out && s.printer == Quiet }

  // the parts these runs are made of

  lemma BeginSave(s0: State, s: State, e: Entry) returns (s': State)
    requires Inv(s0) && Reaches(s0, s) && s.saver == Out
    ensures Reaches(s0, s')
    ensures s' == s.(saver := Dropped(e, s.read), overlapped := true,
                     read := if Size(s) == |s.entries| then Add32(s.read, 1) else s.read)
  {
    ReachStep(s0, s, SaveLock(e));
    s' := Apply(s, SaveLock(e));
    ReachStep(s0, s', SaveDrop);
    s' := Apply(s', SaveDrop);
  }

  lemma CommitSave(s0: State, s: State) returns (s': State)
    requires Inv(s0) && Reaches(s0, s) && s.saver.Dropped?
    ensures Reaches(s0, s')
    ensures s' == s.(saver := Committed(s.saver.e, s.saver.read0, s.write), write := Add32(s.write, 1))
  {
    ReachStep(s0, s, SaveCommit);
    s' := Apply(s, SaveCommit);
  }

  lemma StoreSave(s0: State, s: State) returns (s': State)
    requires Inv(s0) && Reaches(s0, s) && s.saver.Committed?
    ensures Inv(s') && Reaches(s0, s') && |s'.entries| == |s.entries|
    ensures s' == s.(saver := Out, saved := s.saved + [s.saver.e], entries := s'.entries)
  {
    ReachStep(s0, s, SaveStore);
    StepKeepsInv(s, SaveStore);
    s' := Apply(s, SaveStore);
  }

  lemma WholeSave(s0: State, s: State, e: Entry) returns (s': State)
    requires Inv(s0) && Reaches(s0, s) && Resting(s)
    ensures Reaches(s0, s') && Resting(s') && s'.saved == s.saved + [e]
    ensures |s'.entries| == |s.entries|
  {
    s' := BeginSave(s0, s, e);
    s' := CommitSave(s0, s');
    s' := StoreSave(s0, s');
  }

  lemma MeasureBoth(s0: State, s: State) returns (s': State)
    requires Inv(s0) && Reaches(s0, s) && s.printer == Quiet
    ensures Reaches(s0, s')
    ensures s' == s.(printer := Measuring(Some(s.write), Some(s.read)), overlapped := s.saver != Out)
  {
    ReachStep(s0, s, PrintStart);
    s' := Apply(s, PrintStart);
    ReachStep(s0, s', PrintReadWrite);
    s' := Apply(s', PrintReadWrite);
    ReachStep(s0, s', PrintReadRead);
    s' := Apply(s', PrintReadRead);
  }

  lemma TakeSnapshot(s0: State, s: State, beyond: seq<Entry>) returns (s': State)
    requires Inv(s0) && Inv(s) && Reaches(s0, s) && s.saver == Out && s.printer.Measuring?
    requires s.printer.write.Some? && s.printer.read.Some?
    requires Sub32(s.printer.write.value, s.printer.read.value) <= |s.entries| + |beyond|
    ensures Reaches(s0, s') && s' == Apply(s, PrintSnapshot(beyond))
  {
    ReachStep(s0, s, PrintSnapshot(beyond));
    s' := Apply(s, PrintSnapshot(beyond));
  }

  lemma ReachableInv(s0: State, s: State)
    requires Inv(s0) && Reaches(s0, s)
    ensures Inv(s)
  {}

  /** The rest of a save, from after it has made room. */
  lemma EndSave(s0: State, s: State) returns (s': State)
    requires Inv(s0) && Reaches(s0, s) && s.saver.Dropped?
    ensures Reaches(s0, s') && |s'.entries| == |s.entries|
    ensures s' == s.(saver := Out, saved := s.saved + [s.saver.e], entries := s'.entries, write := Add32(s.write, 1))
  {
    var m := CommitSave(s0, s);
    s' := StoreSave(s0, m);
  }

  // the size measured with this many saves, and the ring left alone for one more
  lemma RestingSize(s: State)
    requires Resting(s)
    ensures Size(s) == Min(|s.saved|, |s.entries|) && 0 < |s.entries| <= 0x8000_0000
  {}

  lemma MeasuresInside(s0: State, s: State, e: Entry) returns (s': State)
    requires Inv(s0) && Reaches(s0, s) && Resting(s)
    ensures Reaches(s0, s') && s'.saver == Out && s'.saved == s.saved + [e] && |s'.entries| == |s.entries|
    ensures s'.printer.Measuring? && s'.printer.write.Some? && s'.printer.read.Some?
    ensures Sub32(s'.printer.write.value, s'.printer.read.value) == Min(|s.saved|, |s.entries| - 1) < Size(s')
    ensures Size(s') <= |s.entries|
  {
    RestingSize(s);
    var s1 := BeginSave(s0, s, e);
    var s2 := MeasureBoth(s0, s1);
    s' := EndSave(s0, s2);
  }

  /** From any state at rest: the size is read inside a save, after it has made room and before it has
      moved the write index. The snapshot taken after that save lacks an entry. */
  lemma MeasuredInside(s0: State, s: State, e: Entry) returns (s': State)
    requires Inv(s0) && Reaches(s0, s) && Resting(s)
    ensures Reaches(s0, s') && s'.saved == s.saved + [e] && s'.taken.Some?
    ensures s'.taken.value.size == Min(|s.saved|, |s.entries| - 1) < s'.taken.value.n
    ensures |s'.entries| == |s.entries| && !Complete(s'.taken.value, |s.entries|)
  {
    var m := MeasuresInside(s0, s, e);
    ReachableInv(s0, m);
    SnapshotWorth(m, []);
    s' := TakeSnapshot(s0, m, []);
  }

  /** From any full state at rest: the read index is read before a save and the write index after. The
      size is one more than the queue's, and the copying runs off its end. */
  lemma MeasuredAround(s0: State, s: State, e: Entry, x: Entry) returns (s': State)
    requires Inv(s0) && Reaches(s0, s) && Resting(s) && |s.saved| >= |s.entries|
    ensures Reaches(s0, s') && s'.taken.Some? && |s'.entries| == |s.entries|
    ensures s'.taken.value.size == |s.entries| + 1 && s'.taken.value.copy == s'.entries + [x]
  {
    var m := MeasuresAround(s0, s, e);
    ReachableInv(s0, m);
    SnapshotWorth(m, [x]);
    s' := TakeSnapshot(s0, m, [x]);
  }

  lemma MeasuresAround(s0: State, s: State, e: Entry) returns (s': State)
    requires Inv(s0) && Reaches(s0, s) && Resting(s) && |s.saved| >= |s.entries|
    ensures Reaches(s0, s') && s'.saver == Out && |s'.entries| == |s.entries|
    ensures s'.printer.Measuring? && s'.printer.write.Some? && s'.printer.read.Some?
    ensures Sub32(s'.printer.write.value, s'.printer.read.value) == |s.entries| + 1
  {
    RestingSize(s);
    var s1 := ReadReadFirst(s0, s);
    var s2 := BeginSave(s0, s1, e);
    var s3 := CommitSave(s0, s2);
    ReachStep(s0, s3, PrintReadWrite);
    s' := StoreSave(s0, Apply(s3, PrintReadWrite));
  }

  lemma ReadReadFirst(s0: State, s: State) returns (s': State)
    requires Inv(s0) && Reaches(s0, s) && s.printer == Quiet
    ensures Reaches(s0, s')
    ensures s' == s.(printer := Measuring(None, Some(s.read)), overlapped := s.saver != Out)
  {
    ReachStep(s0, s, PrintStart);
    s' := Apply(s, PrintStart);
    ReachStep(s0, s', PrintReadRead);
    s' := Apply(s', PrintReadRead);
  }

  lemma {:induction false} ManySaves(entries: seq<Entry>, k: nat) returns (s: State)
    requires ValidSize(|entries|)
    ensures Inv(Init(entries)) && Reaches(Init(entries), s) && Resting(s)
    ensures |s.saved| == k && |s.entries| == |entries|
    decreases k
  {
    if k == 0 {
      InitInv(entries);
      ReachItself(Init(entries));
      s := Init(entries);
    } else {
      s := ManySaves(entries, k - 1);
      s := WholeSave(Init(entries), s, NO_ENTRY);
    }
  }

  /** For every size of the ring and after any number of saves, full ring or not, a print that overlaps one
      more save can end up with an incomplete snapshot ... */
  lemma IncompleteSnapshot(entries: seq<Entry>, k: nat)
    requires ValidSize(|entries|)
    ensures Inv(Init(entries)) && exists s ::
              && Reaches(Init(entries), s) && |s.saved| == k + 1
              && s.taken.Some? && !Complete(s.taken.value, |entries|)
  {
    var s := ManySaves(entries, k);
    var s' := MeasuredInside(Init(entries), s, NO_ENTRY);
  }

  /** ... and once the ring is full, with one for which it copied more than the queue. */
  lemma CopyBeyondQueue(entries: seq<Entry>, k: nat)
    requires ValidSize(|entries|) && k >= |entries|
    ensures Inv(Init(entries)) && exists s ::
              Reaches(Init(entries), s) && s.taken.Some? && s.taken.value.size == |entries| + 1
  {
    var s := ManySaves(entries, k);
    var s' := MeasuredAround(Init(entries), s, NO_ENTRY, NO_ENTRY);
  }
}
